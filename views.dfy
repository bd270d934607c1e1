/**
 * The verse views of bible.py: the rows a view fetches (the where-clause
 * of do_view_verses), the verses it highlights, the grouping of the
 * fetched rows into highlight sections by render_verses, and the
 * normalisation of the `v` (version) request parameter by normalize_url.
 * The SQL query itself, the template and the redirect are not modelled:
 * the fetched rows are an input, and the redirect is a flag.
 */
module Views {
  import opened Wrappers
  import opened TextUtil
  import opened Catalog
  import opened CatalogData

  // ---------------------------------------------------------------------
  // Which rows a view fetches, and which it highlights
  // ---------------------------------------------------------------------

  /** Python's comparison of two tuples: the first differing position decides, and a prefix comes first. */
  predicate TupleLe(a: seq<int>, b: seq<int>)
    decreases |a|
  {
    if a == [] then true
    else if b == [] then false
    else if a[0] != b[0] then a[0] < b[0]
    else TupleLe(a[1..], b[1..])
  }

  /** The book number and the two ends that do_view_verses passes to its query. */
  datatype Window = Window(book: int, chapter1: int, verse1: int, chapter2: int, verse2: int)

  /** The where-clause of do_view_verses, on the row (b, c, v). */
  predicate Selects(w: Window, b: int, c: int, v: int) {
    b == w.book
    && (c > w.chapter1 || (c == w.chapter1 && v >= w.verse1))
    && (c < w.chapter2 || (c == w.chapter2 && v <= w.verse2))
  }

  /** On pairs, tuple order is: a smaller first element, or an equal first element and a second no larger. */
  lemma {:induction false} TupleLePair(a: int, b: int, c: int, d: int)
    ensures TupleLe([a, b], [c, d]) <==> a < c || (a == c && b <= d)
  {
    assert [a, b][1..] == [b] && [c, d][1..] == [d];
    assert [b][1..] == [] && [d][1..] == [];
    assert TupleLe([b], [d]) <==> b < d || (b == d && TupleLe([], []));
  }

  /** The where-clause selects the book's rows from (chapter1, verse1) to (chapter2, verse2), both included, in tuple order. */
  lemma {:induction false} SelectsLexRange(w: Window, b: int, c: int, v: int)
    ensures Selects(w, b, c, v) <==>
      b == w.book && TupleLe([w.chapter1, w.verse1], [c, v]) && TupleLe([c, v], [w.chapter2, w.verse2])
  {
    TupleLePair(w.chapter1, w.verse1, c, v);
    TupleLePair(c, v, w.chapter2, w.verse2);
  }

  /** book_index: a book's position in the books table, found through `indices`. */
  function BookIndex(book: Entry): (r: nat)
    requires book.code in IndexMap(Books())
    ensures r < |Books()| && Books()[r].code == book.code
  {
    BookIndices();
    IndexMap(Books())[book.code]
  }

  /** view_verse: the rows from five verses before to five verses after (chapter, verse), in that chapter. */
  function VerseWindow(book: Entry, chapter: int, verse: int): Window
    requires book.code in IndexMap(Books())
  {
    Window(BookIndex(book), chapter, verse - 5, chapter, verse + 5)
  }

  /** view_verse highlights the requested verse: the book number matches and (c, v) == (chapter, verse). */
  function VerseHighlight(booknum: int, chapter: int, verse: int): (int, int, int) -> bool {
    (b, c, v) => b == booknum && [c, v] == [chapter, verse]
  }

  /**
   * view_verse fetches exactly the eleven verse numbers around the
   * requested one in the same chapter, and highlights exactly that verse,
   * which is among the fetched rows.
   */
  lemma {:induction false} ViewVerseShows(book: Entry, chapter: int, verse: int, b: int, c: int, v: int)
    requires book.code in IndexMap(Books())
    ensures Selects(VerseWindow(book, chapter, verse), b, c, v) <==>
      b == BookIndex(book) && c == chapter && verse - 5 <= v <= verse + 5
    ensures VerseHighlight(BookIndex(book), chapter, verse)(b, c, v) <==>
      b == BookIndex(book) && c == chapter && v == verse
    ensures VerseHighlight(BookIndex(book), chapter, verse)(b, c, v) ==> Selects(VerseWindow(book, chapter, verse), b, c, v)
  {
    if [c, v] == [chapter, verse] {
      assert [c, v][0] == c && [c, v][1] == v;
    }
  }

  /** view_verses: the rows from five verses before the first end to five verses after the second. */
  function RangeWindow(book: Entry, chapter1: int, verse1: int, chapter2: int, verse2: int): Window
    requires book.code in IndexMap(Books())
  {
    Window(BookIndex(book), chapter1, verse1 - 5, chapter2, verse2 + 5)
  }

  /** view_verses highlights (chapter1, verse1) <= (c, v) <= (chapter2, verse2) in the book. */
  function RangeHighlight(booknum: int, chapter1: int, verse1: int, chapter2: int, verse2: int): (int, int, int) -> bool {
    (b, c, v) => b == booknum && TupleLe([chapter1, verse1], [c, v]) && TupleLe([c, v], [chapter2, verse2])
  }

  /**
   * view_verses highlights exactly the verses of the requested range, and
   * every highlighted verse is among the rows it fetches.
   */
  lemma {:induction false} ViewVersesShows(book: Entry, chapter1: int, verse1: int, chapter2: int, verse2: int, b: int, c: int, v: int)
    requires book.code in IndexMap(Books())
    ensures RangeHighlight(BookIndex(book), chapter1, verse1, chapter2, verse2)(b, c, v) <==>
      Selects(Window(BookIndex(book), chapter1, verse1, chapter2, verse2), b, c, v)
    ensures RangeHighlight(BookIndex(book), chapter1, verse1, chapter2, verse2)(b, c, v) ==>
      Selects(RangeWindow(book, chapter1, verse1, chapter2, verse2), b, c, v)
  {
    SelectsLexRange(Window(BookIndex(book), chapter1, verse1, chapter2, verse2), b, c, v);
  }

  // ---------------------------------------------------------------------
  // render_verses
  // ---------------------------------------------------------------------

  /** A row of execute_verses_query; text2 and markup2 are None when no second version is shown. */
  datatype Verse = Verse(book: int, chapter: int, verse: int, text: string, markup: Option<string>,
                         text2: Option<string>, markup2: Option<string>)

  /** A row as render_verses hands it to the template. */
  datatype Row = Row(book: Entry, chapter: int, classes: seq<string>, verse: int, prefix: string,
                     text: string, markup: Option<string>, text2: Option<string>, markup2: Option<string>)

  /** A tbody of the template: its classes and its rows. */
  datatype Section = Section(classes: seq<string>, verses: seq<Row>)

  /** The `highlight` keyword argument: absent, or a predicate on (book, chapter, verse). */
  type Highlight = Option<(int, int, int) -> bool>

  predicate Highlighted(highlight: Highlight, v: Verse) {
    highlight.Some? && highlight.value(v.book, v.chapter, v.verse)
  }

  function SectionClasses(hl: bool): seq<string> {
    if hl then ["highlight"] else []
  }

  /** Verse i directly follows verse i - 1: same book, same chapter, next verse number. */
  predicate Continues(verses: seq<Verse>, i: nat)
    requires i < |verses|
  {
    i > 0 && verses[i - 1].book == verses[i].book && verses[i - 1].chapter == verses[i].chapter
    && verses[i - 1].verse == verses[i].verse - 1
  }

  /** render_verses' `prev` before verse i: the previous verse's (book, chapter, verse). */
  function PrevKey(verses: seq<Verse>, i: nat): Option<(int, int, int)>
    requires i <= |verses|
  {
    if i == 0 then None else Some((verses[i - 1].book, verses[i - 1].chapter, verses[i - 1].verse))
  }

  /** render_verses' test on the previous row's (book, chapter, verse) is Continues. */
  lemma FollowsPrev(verses: seq<Verse>, i: nat, prev: Option<(int, int, int)>)
    requires i < |verses|
    requires prev == PrevKey(verses, i)
    ensures (Some((verses[i].book, verses[i].chapter, verses[i].verse - 1)) == prev) == Continues(verses, i)
  {
  }

  /** The row render_verses makes of verse i: "cont" exactly on a continuing verse, an empty prefix, the texts as fetched. */
  function RowOf(books: seq<Entry>, verses: seq<Verse>, i: nat): Row
    requires i < |verses| && 0 <= verses[i].book < |books|
  {
    var v := verses[i];
    Row(books[v.book], v.chapter, if Continues(verses, i) then ["cont"] else [], v.verse, "",
        v.text, v.markup, v.text2, v.markup2)
  }

  /** The rows of all sections, in order. */
  function Flatten(ss: seq<Section>): seq<Row> {
    if ss == [] then [] else Flatten(ss[..|ss| - 1]) + ss[|ss| - 1].verses
  }

  /** The position in Flatten(ss) of the first row of section k. */
  function Offset(ss: seq<Section>, k: nat): nat
    requires k <= |ss|
  {
    |Flatten(ss[..k])|
  }

  /** Every fetched row names a book of `books`. */
  predicate BooksKnown(books: seq<Entry>, verses: seq<Verse>) {
    forall i :: 0 <= i < |verses| ==> 0 <= verses[i].book < |books|
  }

  /** `rows` are the rows of verses lo, lo + 1, ... in order. */
  predicate RowsFrom(rows: seq<Row>, books: seq<Entry>, verses: seq<Verse>, lo: nat) {
    BooksKnown(books, verses) && lo + |rows| <= |verses|
    && forall j {:trigger rows[j]} :: 0 <= j < |rows| ==> rows[j] == RowOf(books, verses, lo + j)
  }

  lemma {:induction false} RowsFromAppend(a: seq<Row>, b: seq<Row>, books: seq<Entry>, verses: seq<Verse>, lo: nat)
    requires RowsFrom(a, books, verses, lo) && RowsFrom(b, books, verses, lo + |a|)
    ensures RowsFrom(a + b, books, verses, lo)
  {
    forall j | 0 <= j < |a + b| ensures (a + b)[j] == RowOf(books, verses, lo + j) {
      if j < |a| {
        assert (a + b)[j] == a[j];
      } else {
        assert (a + b)[j] == b[j - |a|];
      }
    }
  }

  /** Appending the row of the next verse extends the run of rows. */
  lemma {:induction false} NextRow(rows: seq<Row>, books: seq<Entry>, verses: seq<Verse>, lo: nat, row: Row)
    requires RowsFrom(rows, books, verses, lo) && lo + |rows| < |verses|
    requires row == RowOf(books, verses, lo + |rows|)
    ensures RowsFrom(rows + [row], books, verses, lo)
  {
    RowsFromAppend(rows, [row], books, verses, lo);
  }

  /** Verses lo up to hi are all highlighted, or all not, as `hl` says. */
  predicate Uniform(verses: seq<Verse>, highlight: Highlight, lo: nat, hi: nat, hl: bool)
    requires lo <= hi <= |verses|
  {
    forall j :: lo <= j < hi ==> Highlighted(highlight, verses[j]) == hl
  }

  /** The rows of `sec` are verses lo.. of the fetched rows, and the section is classed "highlight" exactly when each of them is highlighted. */
  predicate SectionOk(sec: Section, verses: seq<Verse>, highlight: Highlight, lo: nat) {
    sec.verses != [] && lo + |sec.verses| <= |verses|
    && var hl := Highlighted(highlight, verses[lo]);
       sec.classes == SectionClasses(hl) && Uniform(verses, highlight, lo, lo + |sec.verses|, hl)
  }

  /**
   * The sections, taken in order, split the first |Flatten(ss)| verses
   * into non-empty runs, each classed "highlight" exactly when its verses
   * are highlighted, and neighbouring sections are classed differently.
   */
  predicate Grouped(ss: seq<Section>, verses: seq<Verse>, highlight: Highlight)
    decreases |ss|
  {
    if ss == [] then true
    else
      var init := ss[..|ss| - 1];
      Grouped(init, verses, highlight)
      && SectionOk(ss[|ss| - 1], verses, highlight, |Flatten(init)|)
      && (init != [] ==> init[|init| - 1].classes != ss[|ss| - 1].classes)
  }

  lemma {:induction false} FlattenAppend(ss: seq<Section>, sec: Section)
    ensures Flatten(ss + [sec]) == Flatten(ss) + sec.verses
    ensures Offset(ss + [sec], |ss|) == |Flatten(ss)|
    ensures forall k :: 0 <= k <= |ss| ==> Offset(ss + [sec], k) == Offset(ss, k)
  {
    var ss' := ss + [sec];
    assert ss'[..|ss'| - 1] == ss;
    forall k | 0 <= k <= |ss| ensures Offset(ss', k) == Offset(ss, k) {
      assert ss'[..k] == ss[..k];
    }
    assert ss[..|ss|] == ss;
  }

  /** Row j of section k sits at Offset(ss, k) + j of the flattened rows. */
  lemma {:induction false} FlattenAt(ss: seq<Section>, k: nat, j: nat)
    requires k < |ss| && j < |ss[k].verses|
    ensures Offset(ss, k) + j < |Flatten(ss)| && Flatten(ss)[Offset(ss, k) + j] == ss[k].verses[j]
    decreases |ss|
  {
    var init := ss[..|ss| - 1];
    FlattenAppend(init, ss[|ss| - 1]);
    assert init + [ss[|ss| - 1]] == ss;
    if k < |ss| - 1 {
      assert init[k] == ss[k];
      FlattenAt(init, k, j);
    }
  }

  /** Closing a maximal run keeps the sections grouped. */
  lemma {:induction false} GroupedAppend(ss: seq<Section>, sec: Section, verses: seq<Verse>, highlight: Highlight)
    requires Grouped(ss, verses, highlight)
    requires SectionOk(sec, verses, highlight, |Flatten(ss)|)
    requires ss != [] ==> ss[|ss| - 1].classes != sec.classes
    ensures Grouped(ss + [sec], verses, highlight)
    ensures Flatten(ss + [sec]) == Flatten(ss) + sec.verses
  {
    FlattenAppend(ss, sec);
    assert (ss + [sec])[..|ss|] == ss;
  }

  /**
   * What grouping means section by section: every section k is a
   * non-empty run of verses starting at Offset(ss, k), all highlighted or
   * all not, and classed "highlight" exactly in the first case.
   */
  lemma {:induction false} GroupedSections(ss: seq<Section>, verses: seq<Verse>, highlight: Highlight)
    requires Grouped(ss, verses, highlight)
    ensures |Flatten(ss)| <= |verses|
    ensures forall k :: 0 <= k < |ss| ==> SectionOk(ss[k], verses, highlight, Offset(ss, k))
    decreases |ss|
  {
    if ss != [] {
      var init := ss[..|ss| - 1];
      var last := ss[|ss| - 1];
      assert init + [last] == ss;
      GroupedSections(init, verses, highlight);
      FlattenAppend(init, last);
      forall k | 0 <= k < |ss| ensures SectionOk(ss[k], verses, highlight, Offset(ss, k)) {
        if k < |init| {
          assert ss[k] == init[k];
        }
      }
    }
  }

  /** Neighbouring sections differ in their classes, so each section is a maximal run. */
  lemma {:induction false} GroupedClassesDiffer(ss: seq<Section>, verses: seq<Verse>, highlight: Highlight)
    requires Grouped(ss, verses, highlight)
    ensures forall k :: 0 <= k && k + 1 < |ss| ==> ss[k].classes != ss[k + 1].classes
    decreases |ss|
  {
    if ss != [] {
      var init := ss[..|ss| - 1];
      GroupedClassesDiffer(init, verses, highlight);
      forall k | 0 <= k && k + 1 < |ss| ensures ss[k].classes != ss[k + 1].classes {
        if k + 1 < |init| {
          assert ss[k] == init[k] && ss[k + 1] == init[k + 1];
        } else {
          assert ss[k] == init[|init| - 1];
        }
      }
    }
  }

  /**
   * The state of render_verses after the first i verses: the closed
   * sections and the open run `rows` hold the rows of those verses in
   * order, the open run is uniformly highlighted as `prevhl` says, the
   * closed sections are grouped, and the last of them is classed for the
   * other highlight state.
   */
  predicate Rendered(tbodys: seq<Section>, rows: seq<Row>, prevhl: bool,
                     books: seq<Entry>, verses: seq<Verse>, highlight: Highlight, i: nat)
  {
    i <= |verses| && |Flatten(tbodys)| + |rows| == i
    && RowsFrom(Flatten(tbodys) + rows, books, verses, 0)
    && Uniform(verses, highlight, |Flatten(tbodys)|, i, prevhl)
    && Grouped(tbodys, verses, highlight)
    && (tbodys != [] ==> tbodys[|tbodys| - 1].classes == SectionClasses(!prevhl))
  }

  /** Closing the open run as a section keeps the state and leaves no open rows. */
  lemma {:induction false} CloseRun(tbodys: seq<Section>, rows: seq<Row>, prevhl: bool,
                                    books: seq<Entry>, verses: seq<Verse>, highlight: Highlight, i: nat)
    requires Rendered(tbodys, rows, prevhl, books, verses, highlight, i) && rows != []
    ensures Rendered(tbodys + [Section(SectionClasses(prevhl), rows)], [], !prevhl, books, verses, highlight, i)
    ensures Flatten(tbodys + [Section(SectionClasses(prevhl), rows)]) == Flatten(tbodys) + rows
  {
    var sec := Section(SectionClasses(prevhl), rows);
    var start := |Flatten(tbodys)|;
    assert Highlighted(highlight, verses[start]) == prevhl;
    GroupedAppend(tbodys, sec, verses, highlight);
    assert Flatten(tbodys + [sec]) + [] == Flatten(tbodys) + rows;
  }

  /** Adding the row of verse i to the open run, when i is highlighted like the run, keeps the state. */
  lemma {:induction false} AddRow(tbodys: seq<Section>, rows: seq<Row>, prevhl: bool,
                                  books: seq<Entry>, verses: seq<Verse>, highlight: Highlight, i: nat, row: Row)
    requires Rendered(tbodys, rows, prevhl, books, verses, highlight, i) && i < |verses|
    requires Highlighted(highlight, verses[i]) == prevhl && row == RowOf(books, verses, i)
    ensures Rendered(tbodys, rows + [row], prevhl, books, verses, highlight, i + 1)
  {
    NextRow(Flatten(tbodys) + rows, books, verses, 0, row);
    assert Flatten(tbodys) + (rows + [row]) == (Flatten(tbodys) + rows) + [row];
  }

  /**
   * One iteration of render_verses: when verse i's highlight differs from
   * the open run's, the run is closed as a section (if it has rows) and a
   * new run starts; the row of verse i joins the open run.
   */
  lemma {:induction false} RenderStep(tbodys: seq<Section>, rows: seq<Row>, prevhl: bool,
                                      tbodys': seq<Section>, rows': seq<Row>, hl: bool,
                                      books: seq<Entry>, verses: seq<Verse>, highlight: Highlight, i: nat, row: Row)
    requires Rendered(tbodys, rows, prevhl, books, verses, highlight, i) && i < |verses|
    requires i > 0 ==> rows != []
    requires i == 0 ==> tbodys == [] && rows == []
    requires row == RowOf(books, verses, i) && hl == Highlighted(highlight, verses[i])
    requires tbodys' == if prevhl != hl && rows != [] then tbodys + [Section(SectionClasses(prevhl), rows)] else tbodys
    requires rows' == (if prevhl != hl then [] else rows) + [row]
    ensures Rendered(tbodys', rows', hl, books, verses, highlight, i + 1)
  {
    if prevhl == hl {
      AddRow(tbodys, rows, prevhl, books, verses, highlight, i, row);
    } else if rows != [] {
      CloseRun(tbodys, rows, prevhl, books, verses, highlight, i);
      AddRow(tbodys + [Section(SectionClasses(prevhl), rows)], [], hl, books, verses, highlight, i, row);
    } else {
      assert Rendered(tbodys, [], hl, books, verses, highlight, i);
      AddRow(tbodys, [], hl, books, verses, highlight, i, row);
    }
  }

  /** The row render_verses makes of a verse, given the previous verse's (book, chapter, verse). */
  function RowAfter(books: seq<Entry>, verse: Verse, prev: Option<(int, int, int)>): Row
    requires 0 <= verse.book < |books|
  {
    Row(books[verse.book], verse.chapter, if Some((verse.book, verse.chapter, verse.verse - 1)) == prev then ["cont"] else [],
        verse.verse, "", verse.text, verse.markup, verse.text2, verse.markup2)
  }

  /**
   * The body of render_verses' loop for one verse: close the open run as
   * a section when the highlight changes (if the run has rows), then add
   * the verse's row to the open run.
   */
  method RenderOne(books: seq<Entry>, highlight: Highlight, verse: Verse, prev: Option<(int, int, int)>,
                   prevhl: bool, rows: seq<Row>, tbodys: seq<Section>)
    returns (hl: bool, rows': seq<Row>, tbodys': seq<Section>)
    requires 0 <= verse.book < |books|
    ensures hl == Highlighted(highlight, verse)
    ensures tbodys' == if prevhl != hl && rows != [] then tbodys + [Section(SectionClasses(prevhl), rows)] else tbodys
    ensures rows' == (if prevhl != hl then [] else rows) + [RowAfter(books, verse, prev)]
  {
    hl := if highlight.Some? then highlight.value(verse.book, verse.chapter, verse.verse) else false;
    rows', tbodys' := rows, tbodys;
    if prevhl != hl {
      var sclasses: seq<string> := [];
      if prevhl { sclasses := sclasses + ["highlight"]; }
      assert sclasses == SectionClasses(prevhl);
      if rows' != [] { tbodys' := tbodys' + [Section(sclasses, rows')]; }
      rows' := [];
    }
    var vclasses: seq<string> := [];
    if Some((verse.book, verse.chapter, verse.verse - 1)) == prev { vclasses := vclasses + ["cont"]; }
    assert vclasses == if Some((verse.book, verse.chapter, verse.verse - 1)) == prev then ["cont"] else [];
    rows' := rows' + [Row(books[verse.book], verse.chapter, vclasses, verse.verse, "",
                          verse.text, verse.markup, verse.text2, verse.markup2)];
  }

  /**
   * render_verses, up to the template: the rows of the sections are the
   * verses' rows in order, and the sections are the maximal runs of
   * equally highlighted verses, each classed "highlight" exactly when its
   * verses are highlighted.
   */
  method RenderVerses(books: seq<Entry>, verses: seq<Verse>, highlight: Highlight) returns (sections: seq<Section>)
    requires BooksKnown(books, verses)
    ensures |Flatten(sections)| == |verses| && RowsFrom(Flatten(sections), books, verses, 0)
    ensures Grouped(sections, verses, highlight)
  {
    var prev: Option<(int, int, int)> := None;
    var prevhl := false;
    var rows: seq<Row> := [];
    var tbodys: seq<Section> := [];
    for i := 0 to |verses|
      invariant Rendered(tbodys, rows, prevhl, books, verses, highlight, i)
      invariant i > 0 ==> rows != []
      invariant i == 0 ==> tbodys == [] && rows == []
      invariant prev == PrevKey(verses, i)
    {
      var verse := verses[i];
      var hl, rows', tbodys' := RenderOne(books, highlight, verse, prev, prevhl, rows, tbodys);
      FollowsPrev(verses, i, prev);
      RenderStep(tbodys, rows, prevhl, tbodys', rows', hl, books, verses, highlight, i, RowAfter(books, verse, prev));
      prevhl, rows, tbodys := hl, rows', tbodys';
      prev := Some((verse.book, verse.chapter, verse.verse));
    }
    if rows != [] {
      var sclasses: seq<string> := [];
      if prevhl { sclasses := sclasses + ["highlight"]; }
      assert sclasses == SectionClasses(prevhl);
      CloseRun(tbodys, rows, prevhl, books, verses, highlight, |verses|);
      tbodys := tbodys + [Section(sclasses, rows)];
    }
    sections := tbodys;
  }

  // ---------------------------------------------------------------------
  // normalize_url
  // ---------------------------------------------------------------------

  /** A view argument: a plain value, or a book the URL converter resolved (the text in the URL and the entry it names). */
  datatype Arg = Plain(s: string) | Normalizable(before: string, after: Entry)

  /** What normalize_url leaves behind: g.version1, g.version2, the normalised `v`, the normalised arguments, and whether it redirects. */
  datatype Normalized = Normalized(version1: Entry, version2: Option<Entry>, version: string,
                                   kwargs: map<string, string>, redirect: bool)

  /** str.partition(','): the text before the first comma and the text after it; without a comma, the whole string and "". */
  function Partition(s: string): (r: (string, string))
    ensures ',' !in s ==> r == (s, "")
    ensures ',' in s ==> s == r.0 + [','] + r.1 && ',' !in r.0
  {
    if s == [] then ("", "")
    else if s[0] == ',' then ("", s[1..])
    else
      var r := Partition(s[1..]);
      assert s == [s[0]] + s[1..];
      ([s[0]] + r.0, r.1)
  }

  /** Partition splits at the first comma, so a comma-free head comes back unchanged. */
  lemma {:induction false} PartitionJoin(a: string, b: string)
    requires ',' !in a
    ensures Partition(a + [','] + b) == (a, b)
  {
    var s := a + [','] + b;
    if a != [] {
      assert s[0] == a[0] && s[1..] == a[1..] + [','] + b;
      assert ',' !in a[1..];
      PartitionJoin(a[1..], b);
      assert [a[0]] + a[1..] == a;
    } else {
      assert s[0] == ',' && s[1..] == b;
    }
  }

  /** g.version1: from_any on the text before the comma, or from_code(DEFAULT_VER) when that raises (which raises in turn if DEFAULT_VER is missing). */
  function FirstVersion(versions: seq<Entry>, v1: string): Result<Entry, LookupError> {
    match FromAnyIn(versions, v1)
    case Success(e) => Success(e)
    case Failure(_) => FromCodeIn(versions, DefaultVer)
  }

  /** g.version2: from_any on the text after the comma, dropped when that raises or when it compares equal to the first. */
  function SecondVersion(versions: seq<Entry>, version1: Entry, v2: string): Option<Entry> {
    match FromAnyIn(versions, v2)
    case Success(e) => if Compare(version1, e) == 0 then None else Some(e)
    case Failure(_) => None
  }

  /** The normalised `v`: the first version, a comma and the second when there is one, and "" for DEFAULT_VER alone. */
  function VersionString(version1: Entry, version2: Option<Entry>): string {
    var s := Str(version1) + (if version2.Some? then [','] + Str(version2.value) else "");
    if s == DefaultVer then "" else s
  }

  /** A normalised argument: a book as its code, anything else as it was. */
  function NormalizeArg(a: Arg): string {
    match a
    case Plain(s) => s
    case Normalizable(_, after) => Str(after)
  }

  /** The view's arguments after normalisation. */
  function NormalizeArgs(kwargs: map<string, Arg>): map<string, string> {
    map k | k in kwargs :: NormalizeArg(kwargs[k])
  }

  /** Some book argument was written otherwise than as its code. */
  predicate BookRewritten(kwargs: map<string, Arg>) {
    exists k | k in kwargs :: kwargs[k].Normalizable? && Str(kwargs[k].after) != kwargs[k].before
  }

  /** normalize_url on the request's `v` parameter and the view's arguments, against the versions table. */
  function NormalizeUrl(versions: seq<Entry>, orig: string, kwargs: map<string, Arg>): (r: Result<Normalized, LookupError>)
    ensures r.Failure? <==> FromAnyIn(versions, Partition(orig).0).Failure? && FromCodeIn(versions, DefaultVer).Failure?
    ensures r.Success? ==> r.value.version1 in versions
    ensures r.Success? && r.value.version2.Some? ==>
      r.value.version2.value in versions && r.value.version2.value.code != r.value.version1.code
  {
    var parts := Partition(orig);
    match FirstVersion(versions, parts.0)
    case Failure(err) => Failure(err)
    case Success(version1) =>
      var version2 := SecondVersion(versions, version1, parts.1);
      var version := VersionString(version1, version2);
      Success(Normalized(version1, version2, version, NormalizeArgs(kwargs), orig != version || BookRewritten(kwargs)))
  }

  /**
   * The versions normalize_url settles on: the first is from_any of the
   * text before the comma, or DEFAULT_VER's entry when that misses; the
   * second is from_any of the text after the comma, kept exactly when it
   * resolves to an entry with a different code.
   */
  lemma NormalizeVersions(versions: seq<Entry>, orig: string, kwargs: map<string, Arg>)
    requires NormalizeUrl(versions, orig, kwargs).Success?
    ensures var r := NormalizeUrl(versions, orig, kwargs).value;
      var first := FromAnyIn(versions, Partition(orig).0);
      var second := FromAnyIn(versions, Partition(orig).1);
      (first.Success? ==> r.version1 == first.value)
      && (first.Failure? ==> r.version1 == FromCodeIn(versions, DefaultVer).value)
      && (r.version2.Some? <==> second.Success? && second.value.code != r.version1.code)
      && (r.version2.Some? ==> r.version2.value == second.value)
  {
  }

  /** The normalised `v` is empty exactly when only DEFAULT_VER is selected. */
  lemma NormalizeVersionEmpty(versions: seq<Entry>, orig: string, kwargs: map<string, Arg>)
    requires VersionTable(versions) && NormalizeUrl(versions, orig, kwargs).Success?
    ensures var r := NormalizeUrl(versions, orig, kwargs).value;
      r.version == "" <==> r.version1.code == DefaultVer && r.version2.None?
  {
    var r := NormalizeUrl(versions, orig, kwargs).value;
    CodeNotEmpty(versions, r.version1);
    VersionStringEmpty(r.version1, r.version2);
  }

  /**
   * The normalised arguments: a book becomes its code, any other argument
   * is kept; normalize_url redirects exactly when the normalised `v`
   * differs from the request's, or some book was not written as its code.
   */
  lemma NormalizeRedirects(versions: seq<Entry>, orig: string, kwargs: map<string, Arg>)
    requires NormalizeUrl(versions, orig, kwargs).Success?
    ensures var r := NormalizeUrl(versions, orig, kwargs).value;
      r.kwargs.Keys == kwargs.Keys
      && (forall k :: k in kwargs && kwargs[k].Plain? ==> r.kwargs[k] == kwargs[k].s)
      && (forall k :: k in kwargs && kwargs[k].Normalizable? ==> r.kwargs[k] == kwargs[k].after.code)
      && (r.redirect <==> orig != r.version || exists k :: k in kwargs && kwargs[k].Normalizable? && kwargs[k].after.code != kwargs[k].before)
  {
  }

  /** The normalised `v` is empty exactly for DEFAULT_VER alone: a string with a comma is never DEFAULT_VER. */
  lemma VersionStringEmpty(version1: Entry, version2: Option<Entry>)
    requires version1.code != ""
    ensures VersionString(version1, version2) == "" <==> version1.code == DefaultVer && version2.None?
  {
    if version2.Some? {
      var s := Str(version1) + ([','] + Str(version2.value));
      assert s[|Str(version1)|] == ',';
      assert ',' !in DefaultVer;
      assert s != DefaultVer;
    }
  }

  /** With a well-formed table, DEFAULT_VER resolves, so normalize_url never raises; an unresolvable first version falls back to DEFAULT_VER. */
  lemma NormalizeFallsBack(versions: seq<Entry>, orig: string, kwargs: map<string, Arg>)
    requires VersionTable(versions)
    ensures NormalizeUrl(versions, orig, kwargs).Success?
    ensures FromAnyIn(versions, Partition(orig).0).Failure? ==> NormalizeUrl(versions, orig, kwargs).value.version1.code == DefaultVer
  {
  }

  /** Every code of a well-formed table is non-empty, since "" names no version. */
  lemma CodeNotEmpty(versions: seq<Entry>, e: Entry)
    requires VersionTable(versions) && e in versions
    ensures e.code != ""
  {
    var i :| 0 <= i < |versions| && versions[i] == e;
    assert FromAnyIn(versions, versions[i].code).Success?;
  }

  /** An entry of a well-formed table is the one its own code resolves to. */
  lemma ResolvesToItself(versions: seq<Entry>, e: Entry)
    requires VersionTable(versions) && e in versions
    ensures FromAnyIn(versions, e.code) == Success(e) && ',' !in e.code
  {
    var i :| 0 <= i < |versions| && versions[i] == e;
  }

  /** "" reads back as DEFAULT_VER's entry and no second version. */
  lemma {:induction false} EmptyReads(versions: seq<Entry>, version1: Entry)
    requires VersionTable(versions) && version1 in versions && version1.code == DefaultVer
    ensures FirstVersion(versions, "") == Success(version1) && SecondVersion(versions, version1, "") == None
  {
    var d := FromCodeIn(versions, DefaultVer).value;
    var i :| 0 <= i < |versions| && versions[i] == version1;
    var j :| 0 <= j < |versions| && versions[j] == d;
    if i < j || j < i {
      assert false;
    }
  }

  /** DEFAULT_VER alone is written as "", which reads back as DEFAULT_VER's entry and no second version. */
  lemma DefaultReads(versions: seq<Entry>, version1: Entry)
    requires VersionTable(versions) && version1 in versions && version1.code == DefaultVer
    ensures var parts := Partition(VersionString(version1, None));
      FirstVersion(versions, parts.0) == Success(version1) && SecondVersion(versions, version1, parts.1) == None
  {
    assert VersionString(version1, None) == "";
    assert Partition("") == ("", "");
    EmptyReads(versions, version1);
  }

  /** Any other single version is written as its code, which reads back as itself and no second version. */
  lemma SingleReads(versions: seq<Entry>, version1: Entry)
    requires FromAnyIn(versions, version1.code) == Success(version1) && ',' !in version1.code
    requires FromAnyIn(versions, "").Failure? && version1.code != DefaultVer
    ensures var parts := Partition(VersionString(version1, None));
      FirstVersion(versions, parts.0) == Success(version1) && SecondVersion(versions, version1, parts.1) == None
  {
    assert VersionString(version1, None) == version1.code;
    assert Partition(version1.code) == (version1.code, "");
  }

  /** Two versions are written as their codes joined by a comma: such a string is never DEFAULT_VER. */
  lemma PairString(version1: Entry, version2: Entry)
    ensures VersionString(version1, Some(version2)) == version1.code + [','] + version2.code
  {
    var s := version1.code + [','] + version2.code;
    assert s[|version1.code|] == ',';
    assert ',' !in DefaultVer;
  }

  /** Two versions that each resolve by their own code read back as the same two. */
  lemma PairReads(versions: seq<Entry>, version1: Entry, version2: Entry)
    requires FromAnyIn(versions, version1.code) == Success(version1) && ',' !in version1.code
    requires FromAnyIn(versions, version2.code) == Success(version2) && version2.code != version1.code
    ensures var parts := Partition(VersionString(version1, Some(version2)));
      FirstVersion(versions, parts.0) == Success(version1) && SecondVersion(versions, version1, parts.1) == Some(version2)
  {
    PairString(version1, version2);
    PartitionJoin(version1.code, version2.code);
  }

  /** Reading the normalised `v` back: it names the same versions. */
  lemma VersionStringReads(versions: seq<Entry>, version1: Entry, version2: Option<Entry>)
    requires VersionTable(versions)
    requires version1 in versions
    requires version2.Some? ==> version2.value in versions && version2.value.code != version1.code
    ensures var parts := Partition(VersionString(version1, version2));
      FirstVersion(versions, parts.0) == Success(version1) && SecondVersion(versions, version1, parts.1) == version2
  {
    if version2.Some? {
      ResolvesToItself(versions, version1);
      ResolvesToItself(versions, version2.value);
      PairReads(versions, version1, version2.value);
    } else if version1.code == DefaultVer {
      DefaultReads(versions, version1);
    } else {
      ResolvesToItself(versions, version1);
      SingleReads(versions, version1);
    }
  }

  /**
   * normalize_url is idempotent: the URL it redirects to, read again with
   * its normalised `v` and arguments, names the same versions, keeps the
   * same `v` and arguments, and does not redirect.
   */
  lemma NormalizeIdempotent(versions: seq<Entry>, orig: string, kwargs: map<string, Arg>)
    requires VersionTable(versions)
    ensures NormalizeUrl(versions, orig, kwargs).Success?
    ensures var r := NormalizeUrl(versions, orig, kwargs).value;
      var r2 := NormalizeUrl(versions, r.version, map k | k in r.kwargs :: Plain(r.kwargs[k]));
      r2.Success? && r2.value.version1 == r.version1 && r2.value.version2 == r.version2
      && r2.value.version == r.version && r2.value.kwargs == r.kwargs && !r2.value.redirect
  {
    NormalizeFallsBack(versions, orig, kwargs);
    var r := NormalizeUrl(versions, orig, kwargs).value;
    VersionStringReads(versions, r.version1, r.version2);
    NormalizePlain(versions, r.version, r.kwargs, r.version1, r.version2);
  }

  /** A `v` that reads back as the versions it was written from, with plain arguments, is left as it is. */
  lemma NormalizePlain(versions: seq<Entry>, v: string, kw: map<string, string>, version1: Entry, version2: Option<Entry>)
    requires FirstVersion(versions, Partition(v).0) == Success(version1)
    requires SecondVersion(versions, version1, Partition(v).1) == version2
    requires v == VersionString(version1, version2)
    ensures NormalizeUrl(versions, v, map k | k in kw :: Plain(kw[k])) == Success(Normalized(version1, version2, v, kw, false))
  {
    PlainArgs(kw);
  }

  /** Plain arguments are kept as they are and never cause a redirect. */
  lemma PlainArgs(kw: map<string, string>)
    ensures var plain := map k | k in kw :: Plain(kw[k]);
      NormalizeArgs(plain) == kw && !BookRewritten(plain)
  {
    var plain := map k | k in kw :: Plain(kw[k]);
    assert NormalizeArgs(plain) == kw;
  }
}
