/**
 * The direct-reference shortcut of the `search` view in bible.py.  A
 * query that is a Korean book abbreviation followed by a chapter, a
 * chapter range, a verse or a verse range is answered with a redirect
 * to that passage; any other query is tried as a book alias, and only
 * then searched as free text.
 *
 * The pattern at bible.py:237-238 is
 *   ^\s*(B)\s*(?:(\d+:\d+)(?:[-~](\d+(?::\d+)?))?|(\d+)(?:[-~](\d+))?)\s*$
 * where B is the alternation of every book's `ko` abbreviation in list
 * order.  It is modelled by a hand-written scanner: the book
 * alternatives are tried in order, and after a book the remainder has
 * at most one way to match (every `\d+` must run to the end of its
 * digits, since a digit can follow it in none of the shapes), so the
 * scanner's greedy choices are the regex engine's.  Without re.UNICODE,
 * `\s` and `\d` are the ASCII classes.
 */
module Reference {
  import opened Wrappers
  import opened TextUtil
  import opened Catalog
  import CatalogData

  /** A passage address as the four redirect targets of `search` take it. */
  datatype Ref =
    | OneVerse(chapter: nat, verse: nat)
    | VerseRange(chapter1: nat, verse1: nat, chapter2: nat, verse2: nat)
    | OneChapter(chapter: nat)
    | ChapterRange(chapter1: nat, chapter2: nat)

  /** What `search` answers. */
  datatype Outcome =
    | Home                        // an empty query: redirect to '/'
    | Direct(book: Entry, ref: Ref) // redirect to view_verse, view_verses, view_chapter or view_chapters
    | ViewBook(book: Entry)       // the whole query is a book alias: redirect to view_book
    | FullText(query: string)     // the free-text search over verse texts

  // ---------------------------------------------------------------------
  // Character scanning
  // ---------------------------------------------------------------------

  /** `\s*` from position i: the position after the run of ASCII whitespace. */
  function SkipSpace(s: string, i: nat): (r: nat)
    requires i <= |s|
    ensures i <= r <= |s|
    decreases |s| - i
  {
    if i < |s| && IsRegexSpace(s[i]) then SkipSpace(s, i + 1) else i
  }

  /** `\s*` is greedy: whitespace up to the end of the run, and none right after it. */
  lemma {:induction false} SkipSpaceSpec(s: string, i: nat)
    requires i <= |s|
    ensures forall k :: i <= k < SkipSpace(s, i) ==> IsRegexSpace(s[k])
    ensures SkipSpace(s, i) == |s| || !IsRegexSpace(s[SkipSpace(s, i)])
    decreases |s| - i
  {
    if i < |s| && IsRegexSpace(s[i]) {
      SkipSpaceSpec(s, i + 1);
    }
  }

  /** The end of the run of ASCII digits that starts at position i. */
  function DigitEnd(s: string, i: nat): (r: nat)
    requires i <= |s|
    ensures i <= r <= |s|
    decreases |s| - i
  {
    if i < |s| && IsDigit(s[i]) then DigitEnd(s, i + 1) else i
  }

  /** `\d+` is greedy: digits up to the end of the run, and none right after it. */
  lemma {:induction false} DigitEndSpec(s: string, i: nat)
    requires i <= |s|
    ensures forall k :: i <= k < DigitEnd(s, i) ==> IsDigit(s[k])
    ensures DigitEnd(s, i) == |s| || !IsDigit(s[DigitEnd(s, i)])
    decreases |s| - i
  {
    if i < |s| && IsDigit(s[i]) {
      DigitEndSpec(s, i + 1);
    }
  }

  /**
   * int() of the digits from i to j, read left to right; the scanner
   * only asks for it over a run of digits.
   */
  function Number(s: string, i: nat, j: nat): nat
    requires i <= j <= |s|
    decreases j - i
  {
    if j == i then 0 else Number(s, i, j - 1) * 10 + DigitOf(s[j - 1])
  }

  function DigitOf(c: char): nat {
    if IsDigit(c) then c as int - '0' as int else 0
  }

  /** Over a run of digits, Number is the value of those digits. */
  lemma {:induction false} NumberSpells(s: string, p: nat, d: string)
    requires p + |d| <= |s| && s[p..p + |d|] == d && AllDigits(d)
    ensures Number(s, p, p + |d|) == DigitsValue(d)
    decreases |d|
  {
    if d != [] {
      var init := d[..|d| - 1];
      assert s[p..p + |init|] == init by {
        forall k | 0 <= k < |init| ensures s[p..p + |init|][k] == init[k] {
          assert s[p + k] == s[p..p + |d|][k];
        }
      }
      assert AllDigits(init) by {
        forall k | 0 <= k < |init| ensures IsDigit(init[k]) {
          assert init[k] == d[k];
        }
      }
      NumberSpells(s, p, init);
      assert s[p + |d| - 1] == d[|d| - 1];
    }
  }

  /** The class [-~]. */
  predicate IsDash(c: char) {
    c == '-' || c == '~'
  }

  /** `\s*$` at position i: only whitespace is left. */
  function AtEnd(s: string, i: nat, r: Ref): Option<Ref>
    requires i <= |s|
  {
    if SkipSpace(s, i) == |s| then Some(r) else None
  }

  /**
   * The part of the pattern after the book, matched from position i:
   * `\s*` then either `c:v`, `c:v-n` or `c1:v1-c2:v2`, or else `c` or
   * `c1-c2`, then `\s*$`.  The first number runs from a to b.
   */
  function RefAt(s: string, i: nat): Option<Ref>
    requires i <= |s|
  {
    var a := SkipSpace(s, i);
    var b := DigitEnd(s, a);
    if b == a then None else AfterChapter(s, a, b)
  }

  /** After the first number: `:` goes on with a verse, `-` or `~` with a second chapter, else it was a chapter. */
  function AfterChapter(s: string, a: nat, b: nat): Option<Ref>
    requires a <= |s| && b == DigitEnd(s, a)
  {
    if b < |s| && s[b] == ':' then AfterVerse(s, a, b, DigitEnd(s, b + 1))
    else if b < |s| && IsDash(s[b]) then
      var c := DigitEnd(s, b + 1);
      if c == b + 1 then None
      else AtEnd(s, c, ChapterRange(Number(s, a, b), Number(s, b + 1, c)))
    else AtEnd(s, b, OneChapter(Number(s, a, b)))
  }

  /** After `c:v`, with v from b + 1 to c: a range goes on after `-` or `~`. */
  function AfterVerse(s: string, a: nat, b: nat, c: nat): Option<Ref>
    requires a <= b < |s| && b == DigitEnd(s, a) && c == DigitEnd(s, b + 1)
  {
    if c == b + 1 then None
    else if c < |s| && IsDash(s[c]) then AfterDash(s, a, b, c, DigitEnd(s, c + 1))
    else AtEnd(s, c, OneVerse(Number(s, a, b), Number(s, b + 1, c)))
  }

  /**
   * After `c:v-n`, with n from c + 1 to d: `:` makes n the second
   * chapter and a verse follows; otherwise n is a verse of the first
   * chapter (`int(chap2 or chap1)`).
   */
  function AfterDash(s: string, a: nat, b: nat, c: nat, d: nat): Option<Ref>
    requires a <= b < c < |s| && b == DigitEnd(s, a) && c == DigitEnd(s, b + 1) && d == DigitEnd(s, c + 1)
  {
    if d == c + 1 then None
    else if d < |s| && s[d] == ':' then
      var e := DigitEnd(s, d + 1);
      if e == d + 1 then None
      else AtEnd(s, e, VerseRange(Number(s, a, b), Number(s, b + 1, c), Number(s, c + 1, d), Number(s, d + 1, e)))
    else AtEnd(s, d, VerseRange(Number(s, a, b), Number(s, b + 1, c), Number(s, a, b), Number(s, c + 1, d)))
  }

  // ---------------------------------------------------------------------
  // The book alternation and the view
  // ---------------------------------------------------------------------

  /** The book has a `ko` abbreviation, as every entry of the books table does. */
  predicate HasKo(e: Entry) {
    "ko" in e.fields && e.fields["ko"].Text?
  }

  /** book.ko */
  function Ko(e: Entry): string
    requires HasKo(e)
  {
    e.fields["ko"].s
  }

  predicate AllHaveKo(books: seq<Entry>) {
    forall n :: 0 <= n < |books| ==> HasKo(books[n])
  }

  /** s[i..] starts with t. */
  predicate StartsAt(s: string, i: nat, t: string) {
    i + |t| <= |s| && s[i..i + |t|] == t
  }

  /** Book alternative n matches at position i and the rest of the pattern matches after it. */
  predicate AlternativeMatches(books: seq<Entry>, s: string, i: nat, n: nat)
    requires AllHaveKo(books) && n < |books| && i <= |s|
  {
    StartsAt(s, i, Ko(books[n])) && RefAt(s, i + |Ko(books[n])|).Some?
  }

  /** The alternation from alternative n on: the first book, in list order, with which the whole pattern matches. */
  function MatchFrom(books: seq<Entry>, s: string, i: nat, n: nat): (r: Option<(nat, Ref)>)
    requires AllHaveKo(books) && i <= |s|
    ensures r.Some? ==> n <= r.value.0 < |books|
    decreases |books| - n
  {
    if n >= |books| then None
    else if AlternativeMatches(books, s, i, n) then Some((n, RefAt(s, i + |Ko(books[n])|).value))
    else MatchFrom(books, s, i, n + 1)
  }

  /**
   * The alternation picks the first alternative with which the whole
   * pattern matches, and reads the address after that book.
   */
  lemma {:induction false} MatchFromFirst(books: seq<Entry>, s: string, i: nat, n: nat)
    requires AllHaveKo(books) && i <= |s|
    ensures var r := MatchFrom(books, s, i, n);
      r.Some? ==> (AlternativeMatches(books, s, i, r.value.0)
        && RefAt(s, i + |Ko(books[r.value.0])|) == Some(r.value.1)
        && forall j :: n <= j < r.value.0 ==> !AlternativeMatches(books, s, i, j))
    decreases |books| - n
  {
    if n < |books| {
      if AlternativeMatches(books, s, i, n) {
        MatchFromHere(books, s, i, n);
      } else {
        MatchFromSkips(books, s, i, n, n + 1);
        MatchFromFirst(books, s, i, n + 1);
      }
    }
  }

  lemma MatchFromHere(books: seq<Entry>, s: string, i: nat, n: nat)
    requires AllHaveKo(books) && i <= |s| && n < |books| && AlternativeMatches(books, s, i, n)
    ensures var r := RefAt(s, i + |Ko(books[n])|); r.Some? && MatchFrom(books, s, i, n) == Some((n, r.value))
  {
  }

  /** The alternation fails only when no alternative matches. */
  lemma {:induction false} MatchFromNone(books: seq<Entry>, s: string, i: nat, n: nat)
    requires AllHaveKo(books) && i <= |s|
    ensures MatchFrom(books, s, i, n).None? ==> forall j :: n <= j < |books| ==> !AlternativeMatches(books, s, i, j)
    decreases |books| - n
  {
    if n < |books| && !AlternativeMatches(books, s, i, n) {
      assert MatchFrom(books, s, i, n) == MatchFrom(books, s, i, n + 1);
      MatchFromNone(books, s, i, n + 1);
    }
  }

  /** re.search of the pattern: which book matched (group 1) and the address groups 2-5 spell. */
  function DirectMatch(books: seq<Entry>, s: string): Option<(nat, Ref)>
    requires AllHaveKo(books)
  {
    MatchFrom(books, s, SkipSpace(s, 0), 0)
  }

  /**
   * The `search` view, from request.args['q'] to the redirect or the
   * free-text search it answers with.
   */
  function Search(books: seq<Entry>, q: string): (r: Outcome)
    requires AllHaveKo(books)
    ensures r == Home <==> Strip(q) == []
    ensures r.Direct? ==> DirectMatch(books, Strip(q)).Some? && r.ref == DirectMatch(books, Strip(q)).value.1
    ensures r.Direct? ==> var k := Ko(books[DirectMatch(books, Strip(q)).value.0]);
      FromValueIn(books, k).Success? && r.book == FromValueIn(books, k).value
      && r.book in books && ValueKey(k) in ValueKeys(r.book)
    ensures r.ViewBook? ==>
      FromValueIn(books, Strip(q)).Success? && r.book == FromValueIn(books, Strip(q)).value
      && r.book in books && ValueKey(Strip(q)) in ValueKeys(r.book)
    ensures r.ViewBook? <==> Strip(q) != [] && DirectMatch(books, Strip(q)).None? && FromValueIn(books, Strip(q)).Success?
    ensures r.FullText? <==> Strip(q) != [] && DirectMatch(books, Strip(q)).None? && FromValueIn(books, Strip(q)).Failure?
    ensures r.FullText? ==> r.query == Strip(q)
  {
    var query := Strip(q);
    if query == [] then Home
    else match DirectMatch(books, query)
      case Some(m) =>
        // group 1 is an abbreviation of some book, so from_value finds a book for it
        KoIsAlias(books[m.0]);
        var book := FromValueIn(books, Ko(books[m.0]));
        Direct(book.value, m.1)
      case None =>
        var book := FromValueIn(books, query);
        if book.Success? then ViewBook(book.value) else FullText(query)
  }

  /** A book's `ko` abbreviation is one of its aliases, so from_value on group 1 never raises. */
  lemma {:induction false} KoIsAlias(e: Entry)
    requires HasKo(e)
    ensures ValueKey(Ko(e)) in ValueKeys(e)
  {
    assert IsPublicText(e, "ko");
    assert Ko(e) in e.AllValues();
  }

  /** The characters a regular expression treats specially outside a class. */
  predicate IsRegexMeta(c: char) {
    c == '.' || c == '^' || c == '$' || c == '*' || c == '+' || c == '?' || c == '{' || c == '}'
    || c == '[' || c == ']' || c == '\\' || c == '|' || c == '(' || c == ')'
  }

  predicate IsSyllable(c: char) {
    '\U{AC00}' <= c <= '\U{D7A3}'
  }

  /** A `ko` abbreviation of at most three characters, all Hangul syllables. */
  predicate ShortHangul(k: string) {
    |k| <= 3 && (|k| > 0 ==> IsSyllable(k[0])) && (|k| > 1 ==> IsSyllable(k[1])) && (|k| > 2 ==> IsSyllable(k[2]))
  }

  /** A `ko` abbreviation of Hangul syllables only. */
  predicate HangulKo(e: Entry) {
    HasKo(e) && forall j :: 0 <= j < |Ko(e)| ==> IsSyllable(Ko(e)[j])
  }

  lemma ShortHangulKo(e: Entry)
    requires HasKo(e) && ShortHangul(Ko(e))
    ensures HangulKo(e)
  {
  }

  /** The `ko` abbreviation of each shipped book, one book at a time. */
  lemma BookKo0()
    ensures HasKo(CatalogData.Book(0)) && ShortHangul(Ko(CatalogData.Book(0)))
  {
  }

  lemma BookKo1()
    ensures HasKo(CatalogData.Book(1)) && ShortHangul(Ko(CatalogData.Book(1)))
  {
  }

  lemma BookKo2()
    ensures HasKo(CatalogData.Book(2)) && ShortHangul(Ko(CatalogData.Book(2)))
  {
  }

  lemma BookKo3()
    ensures HasKo(CatalogData.Book(3)) && ShortHangul(Ko(CatalogData.Book(3)))
  {
  }

  lemma BookKo4()
    ensures HasKo(CatalogData.Book(4)) && ShortHangul(Ko(CatalogData.Book(4)))
  {
  }

  lemma BookKo5()
    ensures HasKo(CatalogData.Book(5)) && ShortHangul(Ko(CatalogData.Book(5)))
  {
  }

  lemma BookKo6()
    ensures HasKo(CatalogData.Book(6)) && ShortHangul(Ko(CatalogData.Book(6)))
  {
  }

  lemma BookKo7()
    ensures HasKo(CatalogData.Book(7)) && ShortHangul(Ko(CatalogData.Book(7)))
  {
  }

  lemma BookKo8()
    ensures HasKo(CatalogData.Book(8)) && ShortHangul(Ko(CatalogData.Book(8)))
  {
  }

  lemma BookKo9()
    ensures HasKo(CatalogData.Book(9)) && ShortHangul(Ko(CatalogData.Book(9)))
  {
  }

  lemma BookKo10()
    ensures HasKo(CatalogData.Book(10)) && ShortHangul(Ko(CatalogData.Book(10)))
  {
  }

  lemma BookKo11()
    ensures HasKo(CatalogData.Book(11)) && ShortHangul(Ko(CatalogData.Book(11)))
  {
  }

  lemma BookKo12()
    ensures HasKo(CatalogData.Book(12)) && ShortHangul(Ko(CatalogData.Book(12)))
  {
  }

  lemma BookKo13()
    ensures HasKo(CatalogData.Book(13)) && ShortHangul(Ko(CatalogData.Book(13)))
  {
  }

  lemma BookKo14()
    ensures HasKo(CatalogData.Book(14)) && ShortHangul(Ko(CatalogData.Book(14)))
  {
  }

  lemma BookKo15()
    ensures HasKo(CatalogData.Book(15)) && ShortHangul(Ko(CatalogData.Book(15)))
  {
  }

  lemma BookKo16()
    ensures HasKo(CatalogData.Book(16)) && ShortHangul(Ko(CatalogData.Book(16)))
  {
  }

  lemma BookKo17()
    ensures HasKo(CatalogData.Book(17)) && ShortHangul(Ko(CatalogData.Book(17)))
  {
  }

  lemma BookKo18()
    ensures HasKo(CatalogData.Book(18)) && ShortHangul(Ko(CatalogData.Book(18)))
  {
  }

  lemma BookKo19()
    ensures HasKo(CatalogData.Book(19)) && ShortHangul(Ko(CatalogData.Book(19)))
  {
  }

  lemma BookKo20()
    ensures HasKo(CatalogData.Book(20)) && ShortHangul(Ko(CatalogData.Book(20)))
  {
  }

  lemma BookKo21()
    ensures HasKo(CatalogData.Book(21)) && ShortHangul(Ko(CatalogData.Book(21)))
  {
  }

  lemma BookKo22()
    ensures HasKo(CatalogData.Book(22)) && ShortHangul(Ko(CatalogData.Book(22)))
  {
  }

  lemma BookKo23()
    ensures HasKo(CatalogData.Book(23)) && ShortHangul(Ko(CatalogData.Book(23)))
  {
  }

  lemma BookKo24()
    ensures HasKo(CatalogData.Book(24)) && ShortHangul(Ko(CatalogData.Book(24)))
  {
  }

  lemma BookKo25()
    ensures HasKo(CatalogData.Book(25)) && ShortHangul(Ko(CatalogData.Book(25)))
  {
  }

  lemma BookKo26()
    ensures HasKo(CatalogData.Book(26)) && ShortHangul(Ko(CatalogData.Book(26)))
  {
  }

  lemma BookKo27()
    ensures HasKo(CatalogData.Book(27)) && ShortHangul(Ko(CatalogData.Book(27)))
  {
  }

  lemma BookKo28()
    ensures HasKo(CatalogData.Book(28)) && ShortHangul(Ko(CatalogData.Book(28)))
  {
  }

  lemma BookKo29()
    ensures HasKo(CatalogData.Book(29)) && ShortHangul(Ko(CatalogData.Book(29)))
  {
  }

  lemma BookKo30()
    ensures HasKo(CatalogData.Book(30)) && ShortHangul(Ko(CatalogData.Book(30)))
  {
  }

  lemma BookKo31()
    ensures HasKo(CatalogData.Book(31)) && ShortHangul(Ko(CatalogData.Book(31)))
  {
  }

  lemma BookKo32()
    ensures HasKo(CatalogData.Book(32)) && ShortHangul(Ko(CatalogData.Book(32)))
  {
  }

  lemma BookKo33()
    ensures HasKo(CatalogData.Book(33)) && ShortHangul(Ko(CatalogData.Book(33)))
  {
  }

  lemma BookKo34()
    ensures HasKo(CatalogData.Book(34)) && ShortHangul(Ko(CatalogData.Book(34)))
  {
  }

  lemma BookKo35()
    ensures HasKo(CatalogData.Book(35)) && ShortHangul(Ko(CatalogData.Book(35)))
  {
  }

  lemma BookKo36()
    ensures HasKo(CatalogData.Book(36)) && ShortHangul(Ko(CatalogData.Book(36)))
  {
  }

  lemma BookKo37()
    ensures HasKo(CatalogData.Book(37)) && ShortHangul(Ko(CatalogData.Book(37)))
  {
  }

  lemma BookKo38()
    ensures HasKo(CatalogData.Book(38)) && ShortHangul(Ko(CatalogData.Book(38)))
  {
  }

  lemma BookKo39()
    ensures HasKo(CatalogData.Book(39)) && ShortHangul(Ko(CatalogData.Book(39)))
  {
  }

  lemma BookKo40()
    ensures HasKo(CatalogData.Book(40)) && ShortHangul(Ko(CatalogData.Book(40)))
  {
  }

  lemma BookKo41()
    ensures HasKo(CatalogData.Book(41)) && ShortHangul(Ko(CatalogData.Book(41)))
  {
  }

  lemma BookKo42()
    ensures HasKo(CatalogData.Book(42)) && ShortHangul(Ko(CatalogData.Book(42)))
  {
  }

  lemma BookKo43()
    ensures HasKo(CatalogData.Book(43)) && ShortHangul(Ko(CatalogData.Book(43)))
  {
  }

  lemma BookKo44()
    ensures HasKo(CatalogData.Book(44)) && ShortHangul(Ko(CatalogData.Book(44)))
  {
  }

  lemma BookKo45()
    ensures HasKo(CatalogData.Book(45)) && ShortHangul(Ko(CatalogData.Book(45)))
  {
  }

  lemma BookKo46()
    ensures HasKo(CatalogData.Book(46)) && ShortHangul(Ko(CatalogData.Book(46)))
  {
  }

  lemma BookKo47()
    ensures HasKo(CatalogData.Book(47)) && ShortHangul(Ko(CatalogData.Book(47)))
  {
  }

  lemma BookKo48()
    ensures HasKo(CatalogData.Book(48)) && ShortHangul(Ko(CatalogData.Book(48)))
  {
  }

  lemma BookKo49()
    ensures HasKo(CatalogData.Book(49)) && ShortHangul(Ko(CatalogData.Book(49)))
  {
  }

  lemma BookKo50()
    ensures HasKo(CatalogData.Book(50)) && ShortHangul(Ko(CatalogData.Book(50)))
  {
  }

  lemma BookKo51()
    ensures HasKo(CatalogData.Book(51)) && ShortHangul(Ko(CatalogData.Book(51)))
  {
  }

  lemma BookKo52()
    ensures HasKo(CatalogData.Book(52)) && ShortHangul(Ko(CatalogData.Book(52)))
  {
  }

  lemma BookKo53()
    ensures HasKo(CatalogData.Book(53)) && ShortHangul(Ko(CatalogData.Book(53)))
  {
  }

  lemma BookKo54()
    ensures HasKo(CatalogData.Book(54)) && ShortHangul(Ko(CatalogData.Book(54)))
  {
  }

  lemma BookKo55()
    ensures HasKo(CatalogData.Book(55)) && ShortHangul(Ko(CatalogData.Book(55)))
  {
  }

  lemma BookKo56()
    ensures HasKo(CatalogData.Book(56)) && ShortHangul(Ko(CatalogData.Book(56)))
  {
  }

  lemma BookKo57()
    ensures HasKo(CatalogData.Book(57)) && ShortHangul(Ko(CatalogData.Book(57)))
  {
  }

  lemma BookKo58()
    ensures HasKo(CatalogData.Book(58)) && ShortHangul(Ko(CatalogData.Book(58)))
  {
  }

  lemma BookKo59()
    ensures HasKo(CatalogData.Book(59)) && ShortHangul(Ko(CatalogData.Book(59)))
  {
  }

  lemma BookKo60()
    ensures HasKo(CatalogData.Book(60)) && ShortHangul(Ko(CatalogData.Book(60)))
  {
  }

  lemma BookKo61()
    ensures HasKo(CatalogData.Book(61)) && ShortHangul(Ko(CatalogData.Book(61)))
  {
  }

  lemma BookKo62()
    ensures HasKo(CatalogData.Book(62)) && ShortHangul(Ko(CatalogData.Book(62)))
  {
  }

  lemma BookKo63()
    ensures HasKo(CatalogData.Book(63)) && ShortHangul(Ko(CatalogData.Book(63)))
  {
  }

  lemma BookKo64()
    ensures HasKo(CatalogData.Book(64)) && ShortHangul(Ko(CatalogData.Book(64)))
  {
  }

  lemma BookKo65()
    ensures HasKo(CatalogData.Book(65)) && ShortHangul(Ko(CatalogData.Book(65)))
  {
  }

  /** The same, six books at a time. */
  lemma BooksKo0(i: nat)
    requires i < 6
    ensures HasKo(CatalogData.Book(i)) && ShortHangul(Ko(CatalogData.Book(i)))
  {
    if i == 0 { BookKo0(); } else if i == 1 { BookKo1(); } else if i == 2 { BookKo2(); } else if i == 3 { BookKo3(); } else if i == 4 { BookKo4(); } else { BookKo5(); }
  }

  lemma BooksKo6(i: nat)
    requires 6 <= i < 12
    ensures HasKo(CatalogData.Book(i)) && ShortHangul(Ko(CatalogData.Book(i)))
  {
    if i == 6 { BookKo6(); } else if i == 7 { BookKo7(); } else if i == 8 { BookKo8(); } else if i == 9 { BookKo9(); } else if i == 10 { BookKo10(); } else { BookKo11(); }
  }

  lemma BooksKo12(i: nat)
    requires 12 <= i < 18
    ensures HasKo(CatalogData.Book(i)) && ShortHangul(Ko(CatalogData.Book(i)))
  {
    if i == 12 { BookKo12(); } else if i == 13 { BookKo13(); } else if i == 14 { BookKo14(); } else if i == 15 { BookKo15(); } else if i == 16 { BookKo16(); } else { BookKo17(); }
  }

  lemma BooksKo18(i: nat)
    requires 18 <= i < 24
    ensures HasKo(CatalogData.Book(i)) && ShortHangul(Ko(CatalogData.Book(i)))
  {
    if i == 18 { BookKo18(); } else if i == 19 { BookKo19(); } else if i == 20 { BookKo20(); } else if i == 21 { BookKo21(); } else if i == 22 { BookKo22(); } else { BookKo23(); }
  }

  lemma BooksKo24(i: nat)
    requires 24 <= i < 30
    ensures HasKo(CatalogData.Book(i)) && ShortHangul(Ko(CatalogData.Book(i)))
  {
    if i == 24 { BookKo24(); } else if i == 25 { BookKo25(); } else if i == 26 { BookKo26(); } else if i == 27 { BookKo27(); } else if i == 28 { BookKo28(); } else { BookKo29(); }
  }

  lemma BooksKo30(i: nat)
    requires 30 <= i < 36
    ensures HasKo(CatalogData.Book(i)) && ShortHangul(Ko(CatalogData.Book(i)))
  {
    if i == 30 { BookKo30(); } else if i == 31 { BookKo31(); } else if i == 32 { BookKo32(); } else if i == 33 { BookKo33(); } else if i == 34 { BookKo34(); } else { BookKo35(); }
  }

  lemma BooksKo36(i: nat)
    requires 36 <= i < 42
    ensures HasKo(CatalogData.Book(i)) && ShortHangul(Ko(CatalogData.Book(i)))
  {
    if i == 36 { BookKo36(); } else if i == 37 { BookKo37(); } else if i == 38 { BookKo38(); } else if i == 39 { BookKo39(); } else if i == 40 { BookKo40(); } else { BookKo41(); }
  }

  lemma BooksKo42(i: nat)
    requires 42 <= i < 48
    ensures HasKo(CatalogData.Book(i)) && ShortHangul(Ko(CatalogData.Book(i)))
  {
    if i == 42 { BookKo42(); } else if i == 43 { BookKo43(); } else if i == 44 { BookKo44(); } else if i == 45 { BookKo45(); } else if i == 46 { BookKo46(); } else { BookKo47(); }
  }

  lemma BooksKo48(i: nat)
    requires 48 <= i < 54
    ensures HasKo(CatalogData.Book(i)) && ShortHangul(Ko(CatalogData.Book(i)))
  {
    if i == 48 { BookKo48(); } else if i == 49 { BookKo49(); } else if i == 50 { BookKo50(); } else if i == 51 { BookKo51(); } else if i == 52 { BookKo52(); } else { BookKo53(); }
  }

  lemma BooksKo54(i: nat)
    requires 54 <= i < 60
    ensures HasKo(CatalogData.Book(i)) && ShortHangul(Ko(CatalogData.Book(i)))
  {
    if i == 54 { BookKo54(); } else if i == 55 { BookKo55(); } else if i == 56 { BookKo56(); } else if i == 57 { BookKo57(); } else if i == 58 { BookKo58(); } else { BookKo59(); }
  }

  lemma BooksKo60(i: nat)
    requires 60 <= i < 66
    ensures HasKo(CatalogData.Book(i)) && ShortHangul(Ko(CatalogData.Book(i)))
  {
    if i == 60 { BookKo60(); } else if i == 61 { BookKo61(); } else if i == 62 { BookKo62(); } else if i == 63 { BookKo63(); } else if i == 64 { BookKo64(); } else { assert i == 65; BookKo65(); }
  }

  /**
   * Every shipped book has a `ko` abbreviation, of Hangul syllables only.
   * The pattern joins them unescaped, and none holds a metacharacter, so
   * each is matched literally, as the scanner reads it.
   */
  lemma ShippedBooksHaveKo()
    ensures AllHaveKo(CatalogData.Books())
    ensures forall n :: 0 <= n < |CatalogData.Books()| ==> HangulKo(CatalogData.Books()[n])
    ensures forall n, j :: 0 <= n < |CatalogData.Books()| && 0 <= j < |Ko(CatalogData.Books()[n])| ==>
      !IsRegexMeta(Ko(CatalogData.Books()[n])[j])
  {
    forall i | 0 <= i < 66
      ensures HangulKo(CatalogData.Books()[i])
    {
      if i < 6 { BooksKo0(i); }
      else if i < 12 { BooksKo6(i); }
      else if i < 18 { BooksKo12(i); }
      else if i < 24 { BooksKo18(i); }
      else if i < 30 { BooksKo24(i); }
      else if i < 36 { BooksKo30(i); }
      else if i < 42 { BooksKo36(i); }
      else if i < 48 { BooksKo42(i); }
      else if i < 54 { BooksKo48(i); }
      else if i < 60 { BooksKo54(i); }
      else { BooksKo60(i); }
      ShortHangulKo(CatalogData.Book(i));
    }
  }

  // ---------------------------------------------------------------------
  // References written out, and read back
  // ---------------------------------------------------------------------

  predicate Spaces(w: string) {
    forall k :: 0 <= k < |w| ==> IsRegexSpace(w[k])
  }

  /** One lexeme of a written reference: a number, or a punctuation mark. */
  datatype Lexeme = Numeral(n: nat) | Mark(c: char)

  /**
   * The lexemes of a reference written the way the pattern reads it,
   * with `sep` between the two ends of a range; with `short`, a verse
   * range inside one chapter leaves out the second chapter (`c:v-n`).
   */
  function Lexemes(r: Ref, sep: char, short: bool): seq<Lexeme> {
    match r
    case OneVerse(c, v) => [Numeral(c), Mark(':'), Numeral(v)]
    case VerseRange(c1, v1, c2, v2) =>
      if short && c1 == c2 then [Numeral(c1), Mark(':'), Numeral(v1), Mark(sep), Numeral(v2)]
      else [Numeral(c1), Mark(':'), Numeral(v1), Mark(sep), Numeral(c2), Mark(':'), Numeral(v2)]
    case OneChapter(c) => [Numeral(c)]
    case ChapterRange(c1, c2) => [Numeral(c1), Mark(sep), Numeral(c2)]
  }

  function SpellOne(l: Lexeme): string {
    match l
    case Numeral(n) => NatToDigits(n)
    case Mark(c) => [c]
  }

  /** The lexemes written one after the other, numbers as str() writes them. */
  function Spell(ls: seq<Lexeme>): string {
    if ls == [] then [] else Spell(ls[..|ls| - 1]) + SpellOne(ls[|ls| - 1])
  }

  lemma {:induction false} SpellCons(l: Lexeme, ls: seq<Lexeme>)
    ensures Spell([l] + ls) == SpellOne(l) + Spell(ls)
    decreases |ls|
  {
    if ls != [] {
      var init := ls[..|ls| - 1];
      assert ([l] + ls)[..|ls|] == [l] + init;
      SpellCons(l, init);
    }
  }

  /** A reference as text: `c:v`, `c1:v1-c2:v2`, `c:v-n`, `c` or `c1-c2`. */
  function Format(r: Ref, sep: char, short: bool): string {
    Spell(Lexemes(r, sep, short))
  }

  /** The text of each shape, as the redirect targets would write it with str(). */
  lemma {:induction false} FormatText(r: Ref, sep: char, short: bool)
    ensures Format(r, sep, short) == match r
      case OneVerse(c, v) => NatToDigits(c) + ":" + NatToDigits(v)
      case VerseRange(c1, v1, c2, v2) =>
        if short && c1 == c2 then NatToDigits(c1) + ":" + NatToDigits(v1) + [sep] + NatToDigits(v2)
        else NatToDigits(c1) + ":" + NatToDigits(v1) + [sep] + NatToDigits(c2) + ":" + NatToDigits(v2)
      case OneChapter(c) => NatToDigits(c)
      case ChapterRange(c1, c2) => NatToDigits(c1) + [sep] + NatToDigits(c2)
  {
    match r
    case OneChapter(c) =>
      SpellFirst([Numeral(c)]);
      assert [Numeral(c)][..1] == [Numeral(c)];
    case OneVerse(c, v) =>
      SpellThree(Numeral(c), Mark(':'), Numeral(v));
    case ChapterRange(c1, c2) =>
      SpellThree(Numeral(c1), Mark(sep), Numeral(c2));
    case VerseRange(c1, v1, c2, v2) =>
      SpellThree(Numeral(c1), Mark(':'), Numeral(v1));
      if short && c1 == c2 {
        SpellFive(Numeral(c1), Mark(':'), Numeral(v1), Mark(sep), Numeral(v2));
      } else {
        SpellFive(Numeral(c1), Mark(':'), Numeral(v1), Mark(sep), Numeral(c2));
        SpellSeven(Numeral(c1), Mark(':'), Numeral(v1), Mark(sep), Numeral(c2), Mark(':'), Numeral(v2));
      }
  }

  lemma {:induction false} SpellThree(x: Lexeme, y: Lexeme, z: Lexeme)
    ensures Spell([x, y, z]) == SpellOne(x) + SpellOne(y) + SpellOne(z)
  {
    var ls := [x, y, z];
    SpellFirst(ls);
    SpellNext(ls, 2);
    SpellNext(ls, 3);
    assert ls[..3] == ls;
  }

  lemma {:induction false} SpellFive(x: Lexeme, y: Lexeme, z: Lexeme, u: Lexeme, v: Lexeme)
    ensures Spell([x, y, z, u, v]) == Spell([x, y, z]) + SpellOne(u) + SpellOne(v)
  {
    var ls := [x, y, z, u, v];
    SpellNext(ls, 4);
    SpellNext(ls, 5);
    assert ls[..3] == [x, y, z] && ls[..5] == ls;
  }

  lemma {:induction false} SpellSeven(x: Lexeme, y: Lexeme, z: Lexeme, u: Lexeme, v: Lexeme, f: Lexeme, g: Lexeme)
    ensures Spell([x, y, z, u, v, f, g]) == Spell([x, y, z, u, v]) + SpellOne(f) + SpellOne(g)
  {
    var ls := [x, y, z, u, v, f, g];
    SpellNext(ls, 6);
    SpellNext(ls, 7);
    assert ls[..5] == [x, y, z, u, v] && ls[..7] == ls;
  }

  lemma {:induction false} SpellFirst(ls: seq<Lexeme>)
    requires ls != []
    ensures Spell(ls[..1]) == SpellOne(ls[0])
  {
    assert ls[..1][..0] == [];
  }

  /** Spelling a longer prefix writes one more lexeme. */
  lemma {:induction false} SpellNext(ls: seq<Lexeme>, k: nat)
    requires 0 < k <= |ls|
    ensures Spell(ls[..k]) == Spell(ls[..k - 1]) + SpellOne(ls[k - 1])
  {
    assert ls[..k][..k - 1] == ls[..k - 1];
  }

  /** Nothing but whitespace from i on: `\s*$` matches there. */
  lemma {:induction false} SpacesToEnd(s: string, i: nat)
    requires i <= |s| && Spaces(s[i..])
    ensures SkipSpace(s, i) == |s|
  {
    forall k | i <= k < |s| ensures IsRegexSpace(s[k]) {
      assert s[k] == s[i..][k - i];
    }
    SkipSpaceSpec(s, i);
  }

  /** The text after the book, as the reference and its trailing whitespace. */
  predicate Written(s: string, i: nat, w: string, r: Ref, sep: char, short: bool, w2: string) {
    i <= |s| && s[i..] == w + Format(r, sep, short) + w2
  }

  /**
   * Read back: whatever the separator (`-` or `~`) and whatever the
   * whitespace around it, a written reference is parsed as itself, and
   * `c:v-n` as the range from verse v to verse n of chapter c.
   */
  lemma {:induction false} RefRoundTrip(s: string, i: nat, w: string, r: Ref, sep: char, short: bool, w2: string)
    requires Written(s, i, w, r, sep, short, w2) && Spaces(w) && Spaces(w2) && IsDash(sep)
    ensures RefAt(s, i) == Some(r)
  {
    var a := i + |w|;
    SkipToReference(s, i, w, r, sep, short, w2);
    ScanFormat(s, a, r, sep, short, w2);
    ReadReference(s, a, r, sep, short);
    RefAtSkips(s, i, a);
  }

  /** The parse starts after the leading whitespace, so it is the same from any point that skips to the same place. */
  lemma RefAtSkips(s: string, i: nat, a: nat)
    requires i <= |s| && a <= |s| && SkipSpace(s, i) == SkipSpace(s, a)
    ensures RefAt(s, i) == RefAt(s, a)
  {
  }

  /** `\s*` runs over the whitespace w before the reference, which starts with a digit. */
  lemma {:induction false} SkipToReference(s: string, i: nat, w: string, r: Ref, sep: char, short: bool, w2: string)
    requires Written(s, i, w, r, sep, short, w2) && Spaces(w)
    ensures SkipSpace(s, i) == i + |w| && SkipSpace(s, i + |w|) == i + |w|
    ensures s[i + |w|..] == Format(r, sep, short) + w2
  {
    var f := Format(r, sep, short);
    FormatStartsWithDigit(r, sep, short);
    Regroup(w, f, w2);
    assert (f + w2)[0] == f[0];
    SkipOver(s, i, w, f + w2);
  }

  /** `\s*` from i runs over the whitespace w and stops where t, which does not start with whitespace, begins. */
  lemma {:induction false} SkipOver(s: string, i: nat, w: string, t: string)
    requires i <= |s| && s[i..] == w + t && Spaces(w) && t != [] && !IsRegexSpace(t[0])
    ensures SkipSpace(s, i) == i + |w| && SkipSpace(s, i + |w|) == i + |w| && s[i + |w|..] == t
  {
    forall k | i <= k < i + |w| ensures IsRegexSpace(s[k]) {
      assert s[k] == s[i..][k - i] == w[k - i];
    }
    assert s[i + |w|] == s[i..][|w|] == t[0];
    assert s[i + |w|..] == s[i..][|w|..];
    SkipSpaceSpec(s, i);
  }

  lemma {:induction false} FormatStartsWithDigit(r: Ref, sep: char, short: bool)
    ensures var f := Format(r, sep, short); f != [] && IsDigit(f[0])
  {
    var ls := Lexemes(r, sep, short);
    assert ls == [ls[0]] + ls[1..];
    SpellCons(ls[0], ls[1..]);
    DigitsOf(ls[0].n);
  }

  /** A run of digits that ends where the digits end is read as one number. */
  lemma {:induction false} DigitRun(s: string, p: nat, d: string)
    requires p + |d| <= |s| && s[p..p + |d|] == d && AllDigits(d)
    requires p + |d| == |s| || !IsDigit(s[p + |d|])
    ensures DigitEnd(s, p) == p + |d|
    ensures Number(s, p, p + |d|) == DigitsValue(d)
  {
    NumberSpells(s, p, d);
    DigitEndSpec(s, p);
    forall k | p <= k < p + |d| ensures IsDigit(s[k]) {
      assert s[k] == d[k - p];
    }
  }

  /** The digits of a number, as written by str(). */
  lemma {:induction false} DigitsOf(n: nat)
    ensures var d := NatToDigits(n); d != [] && AllDigits(d) && DigitsValue(d) == n
  {
    DigitsRoundTrip(n);
  }

  /** The digits from p to q are the whole run there, and spell n. */
  predicate NumberAt(s: string, p: nat, q: nat, n: nat) {
    p < q <= |s| && DigitEnd(s, p) == q && Number(s, p, q) == n
  }

  /** s[p..] starts with the number n, and the rest does not go on with a digit. */
  lemma {:induction false} NumberThen(s: string, p: nat, q: nat, n: nat, rest: string)
    requires p <= |s| && s[p..] == NatToDigits(n) + rest && q == p + |NatToDigits(n)|
    requires rest == [] || !IsDigit(rest[0])
    ensures NumberAt(s, p, q, n) && s[q..] == rest
  {
    var d := NatToDigits(n);
    var t := d + rest;
    DigitsOf(n);
    assert s[p..q] == t[..|d|] == d;
    assert s[q..] == t[|d|..] == rest;
    if q < |s| {
      assert s[q] == s[p..][|d|] == rest[0];
    }
    DigitRun(s, p, d);
  }

  /** s[p..] starts with the character ch. */
  lemma {:induction false} CharThen(s: string, p: nat, q: nat, ch: char, rest: string)
    requires p <= |s| && s[p..] == [ch] + rest && q == p + 1
    ensures p < |s| && s[p] == ch && s[q..] == rest
  {
    assert s[p] == s[p..][0];
    assert s[q..] == s[p..][1..];
  }

  /** Concatenation regroups. */
  lemma {:induction false} Regroup(x: string, y: string, z: string)
    ensures x + y + z == x + (y + z)
  {
  }

  /** Two numbers never touch, and no mark is a digit. */
  predicate MarksApart(ls: seq<Lexeme>) {
    forall i :: 0 <= i < |ls| ==>
      (ls[i].Mark? ==> !IsDigit(ls[i].c)) && (ls[i].Numeral? && i + 1 < |ls| ==> ls[i + 1].Mark?)
  }

  lemma {:induction false} LexemesApart(r: Ref, sep: char, short: bool)
    requires IsDash(sep)
    ensures MarksApart(Lexemes(r, sep, short))
  {
  }

  /** The lexemes of ls from the k-th on are read from position p on, and only whitespace follows them. */
  predicate Scanned(s: string, p: nat, ls: seq<Lexeme>, k: nat)
    requires k <= |ls|
    decreases |ls| - k
  {
    p <= |s| &&
    if k == |ls| then SkipSpace(s, p) == |s|
    else match ls[k]
      case Numeral(n) =>
        var q := p + |NatToDigits(n)|;
        NumberAt(s, p, q, n) && Scanned(s, q, ls, k + 1)
      case Mark(c) =>
        p < |s| && s[p] == c && Scanned(s, p + 1, ls, k + 1)
  }

  /** Spelled lexemes followed by whitespace are scanned one by one. */
  lemma {:induction false} ScanSpelled(s: string, p: nat, ls: seq<Lexeme>, k: nat, w2: string)
    requires k <= |ls| && p <= |s| && s[p..] == Spell(ls[k..]) + w2 && Spaces(w2) && MarksApart(ls)
    ensures Scanned(s, p, ls, k)
    decreases |ls| - k, 1
  {
    if k == |ls| {
      assert ls[k..] == [];
      SpacesToEnd(s, p);
    } else if ls[k].Numeral? {
      ScanNumeral(s, p, ls, k, w2);
    } else {
      ScanMark(s, p, ls, k, w2);
    }
  }

  lemma {:induction false} ScanNumeral(s: string, p: nat, ls: seq<Lexeme>, k: nat, w2: string)
    requires k < |ls| && ls[k].Numeral? && p <= |s| && s[p..] == Spell(ls[k..]) + w2 && Spaces(w2) && MarksApart(ls)
    ensures Scanned(s, p, ls, k)
    decreases |ls| - k, 0
  {
    NumeralAhead(s, p, ls, k, w2);
    ScanSpelled(s, p + |NatToDigits(ls[k].n)|, ls, k + 1, w2);
  }

  lemma {:induction false} ScanMark(s: string, p: nat, ls: seq<Lexeme>, k: nat, w2: string)
    requires k < |ls| && ls[k].Mark? && p <= |s| && s[p..] == Spell(ls[k..]) + w2 && Spaces(w2) && MarksApart(ls)
    ensures Scanned(s, p, ls, k)
    decreases |ls| - k, 0
  {
    MarkAhead(s, p, ls, k, w2);
    ScanSpelled(s, p + 1, ls, k + 1, w2);
  }

  /** The k-th lexeme, a number, is read at p, and the rest is spelled after it. */
  lemma {:induction false} NumeralAhead(s: string, p: nat, ls: seq<Lexeme>, k: nat, w2: string)
    requires k < |ls| && ls[k].Numeral? && p <= |s| && s[p..] == Spell(ls[k..]) + w2 && Spaces(w2) && MarksApart(ls)
    ensures var q := p + |NatToDigits(ls[k].n)|; NumberAt(s, p, q, ls[k].n) && s[q..] == Spell(ls[k + 1..]) + w2
  {
    var tail := ls[k..];
    assert tail[0] == ls[k] && tail[1..] == ls[k + 1..];
    SpellFront(tail, w2);
    NoDigitAfterNumeral(ls, k, w2);
    NumberThen(s, p, p + |NatToDigits(ls[k].n)|, ls[k].n, Spell(ls[k + 1..]) + w2);
  }

  /** The k-th lexeme, a mark, is at p, and the rest is spelled after it. */
  lemma {:induction false} MarkAhead(s: string, p: nat, ls: seq<Lexeme>, k: nat, w2: string)
    requires k < |ls| && ls[k].Mark? && p <= |s| && s[p..] == Spell(ls[k..]) + w2
    ensures p < |s| && s[p] == ls[k].c && s[p + 1..] == Spell(ls[k + 1..]) + w2
  {
    var tail := ls[k..];
    assert tail[0] == ls[k] && tail[1..] == ls[k + 1..];
    SpellFront(tail, w2);
    CharThen(s, p, p + 1, ls[k].c, Spell(ls[k + 1..]) + w2);
  }

  lemma {:induction false} SpellFront(ls: seq<Lexeme>, w2: string)
    requires ls != []
    ensures Spell(ls) + w2 == SpellOne(ls[0]) + (Spell(ls[1..]) + w2)
  {
    assert ls == [ls[0]] + ls[1..];
    SpellCons(ls[0], ls[1..]);
    Regroup(SpellOne(ls[0]), Spell(ls[1..]), w2);
  }

  /** What follows a number is a mark or the trailing whitespace, never a digit. */
  lemma {:induction false} NoDigitAfterNumeral(ls: seq<Lexeme>, k: nat, w2: string)
    requires k < |ls| && ls[k].Numeral? && MarksApart(ls) && Spaces(w2)
    ensures var rest := Spell(ls[k + 1..]) + w2; rest == [] || !IsDigit(rest[0])
  {
    var tail := ls[k + 1..];
    var rest := Spell(tail) + w2;
    if tail == [] {
      assert rest == w2;
      if w2 != [] { assert IsRegexSpace(w2[0]); }
    } else {
      assert tail == [tail[0]] + tail[1..];
      SpellCons(tail[0], tail[1..]);
      assert tail[0] == ls[k + 1] && ls[k + 1].Mark?;
      assert rest[0] == tail[0].c;
    }
  }

  /** The lexemes of a written reference followed by whitespace are scanned one by one. */
  lemma {:induction false} ScanFormat(s: string, a: nat, r: Ref, sep: char, short: bool, w2: string)
    requires a <= |s| && s[a..] == Format(r, sep, short) + w2 && Spaces(w2) && IsDash(sep)
    ensures Scanned(s, a, Lexemes(r, sep, short), 0)
  {
    var ls := Lexemes(r, sep, short);
    LexemesApart(r, sep, short);
    assert ls[0..] == ls;
    ScanSpelled(s, a, ls, 0, w2);
  }

  /** One step of Scanned: the k-th lexeme is read at p. */
  lemma {:induction false} ScanStep(s: string, p: nat, ls: seq<Lexeme>, k: nat)
    requires k < |ls| && Scanned(s, p, ls, k)
    ensures ls[k].Numeral? ==>
      var q := p + |NatToDigits(ls[k].n)|; NumberAt(s, p, q, ls[k].n) && Scanned(s, q, ls, k + 1)
    ensures ls[k].Mark? ==> p < |s| && s[p] == ls[k].c && Scanned(s, p + 1, ls, k + 1)
  {
  }

  /** Three steps of Scanned: `c:v` is read at p. */
  lemma {:induction false} ScanVerse(s: string, p: nat, ls: seq<Lexeme>, k: nat, c: nat, v: nat)
    requires k + 3 <= |ls| && ls[k] == Numeral(c) && ls[k + 1] == Mark(':') && ls[k + 2] == Numeral(v)
    requires Scanned(s, p, ls, k)
    ensures var b := p + |NatToDigits(c)|; var e := b + 1 + |NatToDigits(v)|;
      NumberAt(s, p, b, c) && b < |s| && s[b] == ':' && NumberAt(s, b + 1, e, v) && Scanned(s, e, ls, k + 3)
  {
    var b := p + |NatToDigits(c)|;
    ScanStep(s, p, ls, k);
    ScanStep(s, b, ls, k + 1);
    ScanStep(s, b + 1, ls, k + 2);
  }

  /** Scanned lexemes are read back as the reference they spell. */
  lemma {:induction false} ReadReference(s: string, a: nat, r: Ref, sep: char, short: bool)
    requires IsDash(sep) && a <= |s| && SkipSpace(s, a) == a && Scanned(s, a, Lexemes(r, sep, short), 0)
    ensures RefAt(s, a) == Some(r)
  {
    var ls := Lexemes(r, sep, short);
    match r
    case OneVerse(c, v) =>
      ReadOneVerse(s, a, ls, c, v);
    case VerseRange(x1, y1, x2, y2) =>
      if short && x1 == x2 {
        ReadShortRange(s, a, ls, x1, y1, sep, y2);
      } else {
        ReadLongRange(s, a, ls, x1, y1, sep, x2, y2);
      }
    case OneChapter(c) =>
      ReadOneChapter(s, a, ls, c);
    case ChapterRange(x1, x2) =>
      ReadChapterRange(s, a, ls, x1, sep, x2);
  }

  /** The scanner reads `c`, alone before the trailing whitespace. */
  lemma {:induction false} ReadOneChapter(s: string, a: nat, ls: seq<Lexeme>, c: nat)
    requires ls == [Numeral(c)] && Scanned(s, a, ls, 0) && SkipSpace(s, a) == a
    ensures RefAt(s, a) == Some(OneChapter(c))
  {
    var b := a + |NatToDigits(c)|;
    ScanStep(s, a, ls, 0);
    assert AfterChapter(s, a, b) == Some(OneChapter(c));
  }

  /** The scanner reads `c1-c2`. */
  lemma {:induction false} ReadChapterRange(s: string, a: nat, ls: seq<Lexeme>, c1: nat, sep: char, c2: nat)
    requires IsDash(sep) && ls == [Numeral(c1), Mark(sep), Numeral(c2)]
    requires Scanned(s, a, ls, 0) && SkipSpace(s, a) == a
    ensures RefAt(s, a) == Some(ChapterRange(c1, c2))
  {
    var b := a + |NatToDigits(c1)|;
    var e := b + 1 + |NatToDigits(c2)|;
    ScanStep(s, a, ls, 0);
    ScanStep(s, b, ls, 1);
    ScanStep(s, b + 1, ls, 2);
    assert AfterChapter(s, a, b) == Some(ChapterRange(c1, c2));
  }

  /** The scanner reads `c:v`. */
  lemma {:induction false} ReadOneVerse(s: string, a: nat, ls: seq<Lexeme>, c: nat, v: nat)
    requires ls == [Numeral(c), Mark(':'), Numeral(v)] && Scanned(s, a, ls, 0) && SkipSpace(s, a) == a
    ensures RefAt(s, a) == Some(OneVerse(c, v))
  {
    var b := a + |NatToDigits(c)|;
    var e := b + 1 + |NatToDigits(v)|;
    ScanVerse(s, a, ls, 0, c, v);
    assert AfterVerse(s, a, b, e) == Some(OneVerse(c, v));
  }

  /** The scanner reads `c:v1-v2` as a range inside chapter c. */
  lemma {:induction false} ReadShortRange(s: string, a: nat, ls: seq<Lexeme>, c: nat, v1: nat, sep: char, v2: nat)
    requires IsDash(sep) && ls == [Numeral(c), Mark(':'), Numeral(v1), Mark(sep), Numeral(v2)]
    requires Scanned(s, a, ls, 0) && SkipSpace(s, a) == a
    ensures RefAt(s, a) == Some(VerseRange(c, v1, c, v2))
  {
    var b := a + |NatToDigits(c)|;
    var e := b + 1 + |NatToDigits(v1)|;
    var f := e + 1 + |NatToDigits(v2)|;
    ScanVerse(s, a, ls, 0, c, v1);
    ScanStep(s, e, ls, 3);
    ScanStep(s, e + 1, ls, 4);
    AssembleShortRange(s, a, b, e, f, c, v1, sep, v2);
  }

  lemma {:induction false} AssembleShortRange(s: string, a: nat, b: nat, e: nat, f: nat, c: nat, v1: nat, sep: char, v2: nat)
    requires IsDash(sep) && a <= |s| && SkipSpace(s, a) == a
    requires NumberAt(s, a, b, c) && b < |s| && s[b] == ':'
    requires NumberAt(s, b + 1, e, v1) && e < |s| && s[e] == sep
    requires NumberAt(s, e + 1, f, v2) && SkipSpace(s, f) == |s|
    ensures RefAt(s, a) == Some(VerseRange(c, v1, c, v2))
  {
    assert AfterDash(s, a, b, e, f) == Some(VerseRange(c, v1, c, v2));
    assert AfterVerse(s, a, b, e) == Some(VerseRange(c, v1, c, v2));
  }

  /** The scanner reads `c1:v1-c2:v2`. */
  lemma {:induction false} ReadLongRange(s: string, a: nat, ls: seq<Lexeme>, c1: nat, v1: nat, sep: char, c2: nat, v2: nat)
    requires IsDash(sep) && |ls| == 7 && ls[0] == Numeral(c1) && ls[1] == Mark(':') && ls[2] == Numeral(v1) && ls[3] == Mark(sep)
    requires ls[4] == Numeral(c2) && ls[5] == Mark(':') && ls[6] == Numeral(v2)
    requires Scanned(s, a, ls, 0) && SkipSpace(s, a) == a
    ensures RefAt(s, a) == Some(VerseRange(c1, v1, c2, v2))
  {
    var b := a + |NatToDigits(c1)|;
    var e := b + 1 + |NatToDigits(v1)|;
    var f := e + 1 + |NatToDigits(c2)|;
    var g := f + 1 + |NatToDigits(v2)|;
    ScanLongRange(s, a, ls, c1, v1, sep, c2, v2);
    AssembleLongRange(s, a, b, e, f, g, c1, v1, sep, c2, v2);
  }

  /** The seven steps of Scanned for `c1:v1-c2:v2`. */
  lemma {:induction false} ScanLongRange(s: string, a: nat, ls: seq<Lexeme>, c1: nat, v1: nat, sep: char, c2: nat, v2: nat)
    requires |ls| == 7 && ls[0] == Numeral(c1) && ls[1] == Mark(':') && ls[2] == Numeral(v1) && ls[3] == Mark(sep)
    requires ls[4] == Numeral(c2) && ls[5] == Mark(':') && ls[6] == Numeral(v2)
    requires Scanned(s, a, ls, 0)
    ensures var b := a + |NatToDigits(c1)|;
      var e := b + 1 + |NatToDigits(v1)|;
      var f := e + 1 + |NatToDigits(c2)|;
      var g := f + 1 + |NatToDigits(v2)|;
      NumberAt(s, a, b, c1) && b < |s| && s[b] == ':' && NumberAt(s, b + 1, e, v1) && e < |s| && s[e] == sep
      && NumberAt(s, e + 1, f, c2) && f < |s| && s[f] == ':' && NumberAt(s, f + 1, g, v2) && SkipSpace(s, g) == |s|
  {
    var b := a + |NatToDigits(c1)|;
    var e := b + 1 + |NatToDigits(v1)|;
    ScanVerse(s, a, ls, 0, c1, v1);
    ScanRangeEnd(s, e, ls, 3, sep, c2, v2);
  }

  /** The last four steps of Scanned: `-c:v` is read at p, and only whitespace follows. */
  lemma {:induction false} ScanRangeEnd(s: string, p: nat, ls: seq<Lexeme>, k: nat, sep: char, c: nat, v: nat)
    requires k + 4 == |ls| && ls[k] == Mark(sep) && ls[k + 1] == Numeral(c) && ls[k + 2] == Mark(':') && ls[k + 3] == Numeral(v)
    requires Scanned(s, p, ls, k)
    ensures var f := p + 1 + |NatToDigits(c)|; var g := f + 1 + |NatToDigits(v)|;
      p < |s| && s[p] == sep && NumberAt(s, p + 1, f, c) && f < |s| && s[f] == ':' && NumberAt(s, f + 1, g, v)
      && SkipSpace(s, g) == |s|
  {
    ScanStep(s, p, ls, k);
    ScanVerse(s, p + 1, ls, k + 1, c, v);
    ScanEnd(s, p + 1 + |NatToDigits(c)| + 1 + |NatToDigits(v)|, ls);
  }

  /** Past the last lexeme only whitespace is left. */
  lemma ScanEnd(s: string, p: nat, ls: seq<Lexeme>)
    requires Scanned(s, p, ls, |ls|)
    ensures SkipSpace(s, p) == |s|
  {
  }

  lemma {:induction false} AssembleLongRange(s: string, a: nat, b: nat, e: nat, f: nat, g: nat,
                                             c1: nat, v1: nat, sep: char, c2: nat, v2: nat)
    requires IsDash(sep) && a <= |s| && SkipSpace(s, a) == a
    requires NumberAt(s, a, b, c1) && b < |s| && s[b] == ':'
    requires NumberAt(s, b + 1, e, v1) && e < |s| && s[e] == sep
    requires NumberAt(s, e + 1, f, c2) && f < |s| && s[f] == ':'
    requires NumberAt(s, f + 1, g, v2) && SkipSpace(s, g) == |s|
    ensures RefAt(s, a) == Some(VerseRange(c1, v1, c2, v2))
  {
    assert AfterDash(s, a, b, e, f) == Some(VerseRange(c1, v1, c2, v2));
    assert AfterVerse(s, a, b, e) == Some(VerseRange(c1, v1, c2, v2));
  }

  // ---------------------------------------------------------------------
  // The view on a written reference
  // ---------------------------------------------------------------------

  /** The alternation runs past alternatives that do not match. */
  lemma {:induction false} MatchFromSkips(books: seq<Entry>, s: string, i: nat, m: nat, n: nat)
    requires AllHaveKo(books) && i <= |s| && m <= n <= |books|
    requires forall j :: m <= j < n ==> !AlternativeMatches(books, s, i, j)
    ensures MatchFrom(books, s, i, m) == MatchFrom(books, s, i, n)
    decreases n - m
  {
    if m < n {
      MatchFromSkips(books, s, i, m + 1, n);
    }
  }

  /**
   * A query that is book n's abbreviation, optional whitespace and a
   * written reference redirects to that reference in the book that
   * from_value finds for the abbreviation, unless an earlier book's
   * abbreviation already matches the whole pattern (the regex tries
   * the alternatives in list order, so "요일 1:1" reaches 1John past
   * John's "요", whose rest "일 1:1" does not match).
   */
  lemma {:induction false} DirectReference(books: seq<Entry>, n: nat, w: string, r: Ref, sep: char, short: bool)
    requires AllHaveKo(books) && n < |books|
    requires var k := Ko(books[n]); k != [] && !IsSpace(k[0]) && !IsRegexSpace(k[0])
    requires Spaces(w) && IsDash(sep)
    requires var q := Ko(books[n]) + w + Format(r, sep, short);
      forall j :: 0 <= j < n ==> !AlternativeMatches(books, q, 0, j)
    ensures var q := Ko(books[n]) + w + Format(r, sep, short);
      FromValueIn(books, Ko(books[n])).Success?
      && Search(books, q) == Direct(FromValueIn(books, Ko(books[n])).value, r)
  {
    var k := Ko(books[n]);
    var q := k + w + Format(r, sep, short);
    DirectParts(k, w, r, sep, short);
    assert AlternativeMatches(books, q, 0, n);
    MatchFromSkips(books, q, 0, 0, n);
    KoIsAlias(books[n]);
  }

  /** The query k + w + Format(r) is unpadded, starts with k and reads r after it. */
  lemma {:induction false} DirectParts(k: string, w: string, r: Ref, sep: char, short: bool)
    requires k != [] && !IsSpace(k[0]) && !IsRegexSpace(k[0]) && Spaces(w) && IsDash(sep)
    ensures var q := k + w + Format(r, sep, short);
      Strip(q) == q && SkipSpace(q, 0) == 0 && StartsAt(q, 0, k) && RefAt(q, |k|) == Some(r)
  {
    var f := Format(r, sep, short);
    var q := k + w + f;
    FormatEndsWithDigit(r, sep, short);
    assert q[0] == k[0] && q[|q| - 1] == f[|f| - 1];
    StripUnpadded(q);
    assert SkipSpace(q, 0) == 0;
    assert StartsAt(q, 0, k) by { assert q[..|k|] == k; }
    WrittenAfter(q, k, w, f);
    RefRoundTrip(q, |k|, w, r, sep, short, []);
  }

  lemma WrittenAfter(q: string, k: string, w: string, f: string)
    requires q == k + w + f
    ensures q[|k|..] == w + f + []
  {
  }

  lemma {:induction false} FormatEndsWithDigit(r: Ref, sep: char, short: bool)
    ensures var f := Format(r, sep, short); f != [] && IsDigit(f[|f| - 1]) && !IsSpace(f[|f| - 1])
  {
    var ls := Lexemes(r, sep, short);
    var d := SpellOne(ls[|ls| - 1]);
    var f := Format(r, sep, short);
    assert f[|f| - 1] == d[|d| - 1];
  }

  /** Examples of the shapes the pattern reads, over any string of ASCII whitespace after the book. */
  lemma {:induction false} PatternShapes(s: string, i: nat)
    requires i <= |s|
    ensures s[i..] == " 3:16" ==> RefAt(s, i) == Some(OneVerse(3, 16))
    ensures s[i..] == "3:16-18" ==> RefAt(s, i) == Some(VerseRange(3, 16, 3, 18))
    ensures s[i..] == "3:16~4:2 " ==> RefAt(s, i) == Some(VerseRange(3, 16, 4, 2))
    ensures s[i..] == "12" ==> RefAt(s, i) == Some(OneChapter(12))
    ensures s[i..] == " 3-4" ==> RefAt(s, i) == Some(ChapterRange(3, 4))
  {
    if s[i..] == " 3:16" { OneVerseExample(s, i); }
    if s[i..] == "3:16-18" { ShortRangeExample(s, i); }
    if s[i..] == "3:16~4:2 " { LongRangeExample(s, i); }
    if s[i..] == "12" { OneChapterExample(s, i); }
    if s[i..] == " 3-4" { ChapterRangeExample(s, i); }
  }

  lemma {:induction false} OneVerseExample(s: string, i: nat)
    requires i <= |s| && s[i..] == " 3:16"
    ensures RefAt(s, i) == Some(OneVerse(3, 16))
  {
    FormatText(OneVerse(3, 16), '-', false);
    assert s[i..] == " " + Format(OneVerse(3, 16), '-', false) + "";
    RefRoundTrip(s, i, " ", OneVerse(3, 16), '-', false, "");
  }

  lemma {:induction false} ShortRangeExample(s: string, i: nat)
    requires i <= |s| && s[i..] == "3:16-18"
    ensures RefAt(s, i) == Some(VerseRange(3, 16, 3, 18))
  {
    FormatText(VerseRange(3, 16, 3, 18), '-', true);
    assert s[i..] == "" + Format(VerseRange(3, 16, 3, 18), '-', true) + "";
    RefRoundTrip(s, i, "", VerseRange(3, 16, 3, 18), '-', true, "");
  }

  lemma {:induction false} LongRangeExample(s: string, i: nat)
    requires i <= |s| && s[i..] == "3:16~4:2 "
    ensures RefAt(s, i) == Some(VerseRange(3, 16, 4, 2))
  {
    FormatText(VerseRange(3, 16, 4, 2), '~', false);
    assert s[i..] == "" + Format(VerseRange(3, 16, 4, 2), '~', false) + " ";
    RefRoundTrip(s, i, "", VerseRange(3, 16, 4, 2), '~', false, " ");
  }

  lemma {:induction false} OneChapterExample(s: string, i: nat)
    requires i <= |s| && s[i..] == "12"
    ensures RefAt(s, i) == Some(OneChapter(12))
  {
    FormatText(OneChapter(12), '-', false);
    assert s[i..] == "" + Format(OneChapter(12), '-', false) + "";
    RefRoundTrip(s, i, "", OneChapter(12), '-', false, "");
  }

  lemma {:induction false} ChapterRangeExample(s: string, i: nat)
    requires i <= |s| && s[i..] == " 3-4"
    ensures RefAt(s, i) == Some(ChapterRange(3, 4))
  {
    FormatText(ChapterRange(3, 4), '-', false);
    assert s[i..] == " " + Format(ChapterRange(3, 4), '-', false) + "";
    RefRoundTrip(s, i, " ", ChapterRange(3, 4), '-', false, "");
  }

  /** Shapes the pattern refuses: a dangling separator, a missing verse, a letter after the digits. */
  lemma {:induction false} PatternRefusals(s: string, i: nat)
    requires i <= |s|
    ensures s[i..] == "3:" ==> RefAt(s, i).None?
    ensures s[i..] == "3-" ==> RefAt(s, i).None?
    ensures s[i..] == "3:4-5:" ==> RefAt(s, i).None?
    ensures s[i..] == "3a" ==> RefAt(s, i).None?
    ensures s[i..] == "" ==> RefAt(s, i).None?
  {
    if s[i..] == "3:" {
      assert s[i] == '3' && s[i + 1] == ':' && i + 2 == |s|;
      assert SkipSpace(s, i) == i && DigitEnd(s, i + 1) == i + 1 && DigitEnd(s, i) == i + 1;
      assert DigitEnd(s, i + 2) == i + 2;
    }
    if s[i..] == "3-" {
      assert s[i] == '3' && s[i + 1] == '-' && i + 2 == |s|;
      assert SkipSpace(s, i) == i && DigitEnd(s, i + 1) == i + 1 && DigitEnd(s, i) == i + 1;
      assert DigitEnd(s, i + 2) == i + 2;
    }
    if s[i..] == "3:4-5:" {
      assert s[i] == '3' && s[i + 1] == ':' && s[i + 2] == '4' && s[i + 3] == '-' && s[i + 4] == '5' && s[i + 5] == ':' && i + 6 == |s|;
      assert SkipSpace(s, i) == i && DigitEnd(s, i + 1) == i + 1 && DigitEnd(s, i) == i + 1;
      assert DigitEnd(s, i + 3) == i + 3 && DigitEnd(s, i + 2) == i + 3;
      assert DigitEnd(s, i + 5) == i + 5 && DigitEnd(s, i + 4) == i + 5;
      assert DigitEnd(s, i + 6) == i + 6;
    }
    if s[i..] == "3a" {
      assert s[i] == '3' && s[i + 1] == 'a' && i + 2 == |s|;
      assert SkipSpace(s, i) == i && DigitEnd(s, i + 1) == i + 1 && DigitEnd(s, i) == i + 1;
      assert SkipSpace(s, i + 1) == i + 1;
    }
  }
}
