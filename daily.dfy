/**
 * The daily-reading topics of populate.py.  Each code of daily.json maps
 * to a flat list of items: a book alias followed by either chapter,
 * verse, chapter, verse (five items) or chapter, chapter (three items,
 * meaning the whole chapters).  The list is turned into ordinal ranges,
 * sorted, checked to be strictly separated and merged where one range
 * ends right before the next begins.
 */
module Daily {
  import opened Wrappers
  import Markers
  import Ordinals

  /** A JSON array element: a string or an integer. */
  datatype Item = Str(s: string) | Int(n: int)

  /** The Python exception each failing lookup or assertion raises. */
  datatype DailyError = KeyError | IndexError | AttributeError | AssertionFailed

  /** The tables built before the daily data is read. */
  datatype Tables = Tables(
    aliases: map<string, int>,
    minverse: map<(int, int), int>,
    maxverse: map<(int, int), int>,
    bcvs: map<Ordinals.Key, (nat, nat)>)

  type Range = (int, int)

  /** `bookaliases[normalize(item)]`: a number has no `split`. */
  function Book(t: Tables, item: Item): (r: Result<int, DailyError>)
    ensures r.Success? <==> item.Str? && Markers.Normalize(item.s) in t.aliases
    ensures r.Success? ==> r.value == t.aliases[Markers.Normalize(item.s)]
  {
    if item.Int? then Failure(AttributeError)
    else if Markers.Normalize(item.s) in t.aliases then Success(t.aliases[Markers.Normalize(item.s)])
    else Failure(KeyError)
  }

  /** `minverse[book, chapter]` or `maxverse[book, chapter]`: a string chapter is never a key. */
  function Bound(m: map<(int, int), int>, book: int, chapter: Item): (r: Result<int, DailyError>)
    ensures r.Success? <==> chapter.Int? && (book, chapter.n) in m
  {
    if chapter.Int? && (book, chapter.n) in m then Success(m[(book, chapter.n)]) else Failure(KeyError)
  }

  /** `bcvs[book, chapter, verse][1]`, the ordinal of a verse. */
  function OrdinalOf(t: Tables, book: int, chapter: Item, verse: Item): (r: Result<int, DailyError>)
    ensures r.Success? <==> chapter.Int? && verse.Int? && Ordinals.Key(book, chapter.n, verse.n) in t.bcvs
  {
    if chapter.Int? && verse.Int? && Ordinals.Key(book, chapter.n, verse.n) in t.bcvs
    then Success(t.bcvs[Ordinals.Key(book, chapter.n, verse.n)].1)
    else Failure(KeyError)
  }

  /**
   * One trip round the parsing loop: the range at the head of items and
   * the number of items it used.  The five-item form is taken when there
   * are more than three items and the fourth is a number.
   */
  function ParseOne(items: seq<Item>, t: Tables): (r: Result<(Range, nat), DailyError>)
    requires items != []
    ensures r.Success? ==> r.value.1 <= |items|
    ensures r.Success? ==> r.value.1 == (if |items| > 3 && items[3].Int? then 5 else 3)
  {
    var book :- Book(t, items[0]);
    if |items| > 3 && items[3].Int? then
      if |items| < 5 then Failure(IndexError)
      else
        var o1 :- OrdinalOf(t, book, items[1], items[2]);
        var o2 :- OrdinalOf(t, book, items[3], items[4]);
        Success(((o1, o2), 5))
    else if |items| < 2 then Failure(IndexError)
    else
      var v1 :- Bound(t.minverse, book, items[1]);
      if |items| < 3 then Failure(IndexError)
      else
        var v2 :- Bound(t.maxverse, book, items[2]);
        var o1 :- OrdinalOf(t, book, items[1], Int(v1));
        var o2 :- OrdinalOf(t, book, items[2], Int(v2));
        Success(((o1, o2), 3))
  }

  /** The ranges of a whole item list, or the first error. */
  function ParseAll(items: seq<Item>, t: Tables): (r: Result<seq<Range>, DailyError>)
    ensures r.Success? ==> 3 * |r.value| <= |items|
    decreases |items|
  {
    if items == [] then Success([])
    else
      var one :- ParseOne(items, t);
      var rest :- ParseAll(items[one.1..], t);
      Success([one.0] + rest)
  }

  /** acc followed by the ranges of r, or r's error. */
  function Then(acc: seq<Range>, r: Result<seq<Range>, DailyError>): Result<seq<Range>, DailyError> {
    if r.Success? then Success(acc + r.value) else r
  }

  /** The `while ranges:` loop, consuming the list from the front. */
  method ParseRanges(items: seq<Item>, t: Tables) returns (r: Result<seq<Range>, DailyError>)
    ensures r == ParseAll(items, t)
  {
    var rest := items;
    var ordranges: seq<Range> := [];
    ThenNothing(ParseAll(items, t));
    while rest != []
      invariant ParseAll(items, t) == Then(ordranges, ParseAll(rest, t))
      decreases |rest|
    {
      var one := ParseOne(rest, t);
      if one.Failure? {
        return Failure(one.error);
      }
      var range, used := one.value.0, one.value.1;
      assert ParseAll(rest, t) == Then([range], ParseAll(rest[used..], t));
      ThenThen(ordranges, range, ParseAll(rest[used..], t));
      ordranges := ordranges + [range];
      rest := rest[used..];
    }
    assert ordranges + [] == ordranges;
    return Success(ordranges);
  }

  lemma ThenNothing(r: Result<seq<Range>, DailyError>)
    ensures Then([], r) == r
  {
    if r.Success? {
      assert [] + r.value == r.value;
    }
  }

  lemma ThenThen(acc: seq<Range>, x: Range, r: Result<seq<Range>, DailyError>)
    ensures Then(acc, Then([x], r)) == Then(acc + [x], r)
  {
    if r.Success? {
      assert acc + ([x] + r.value) == (acc + [x]) + r.value;
    }
  }

  // ---------------------------------------------------------------------
  // The readings the item list is a flattening of

  /** A reading as it is written in daily.json. */
  datatype Reading =
    | Chapters(book: string, chapter1: int, chapter2: int)
    | Verses(book: string, chapter1: int, verse1: int, chapter2: int, verse2: int)

  function ItemsOf(g: Reading): seq<Item> {
    match g
    case Chapters(b, c1, c2) => [Str(b), Int(c1), Int(c2)]
    case Verses(b, c1, v1, c2, v2) => [Str(b), Int(c1), Int(v1), Int(c2), Int(v2)]
  }

  function Flatten(gs: seq<Reading>): seq<Item> {
    if gs == [] then [] else ItemsOf(gs[0]) + Flatten(gs[1..])
  }

  /** The ordinal range a reading stands for, looked up directly. */
  function Resolve(g: Reading, t: Tables): Result<Range, DailyError> {
    var alias := Markers.Normalize(g.book);
    if alias !in t.aliases then Failure(KeyError)
    else
      var b := t.aliases[alias];
      match g
      case Verses(_, c1, v1, c2, v2) =>
        if Ordinals.Key(b, c1, v1) !in t.bcvs || Ordinals.Key(b, c2, v2) !in t.bcvs then Failure(KeyError)
        else Success((t.bcvs[Ordinals.Key(b, c1, v1)].1, t.bcvs[Ordinals.Key(b, c2, v2)].1))
      case Chapters(_, c1, c2) =>
        if (b, c1) !in t.minverse || (b, c2) !in t.maxverse then Failure(KeyError)
        else
          var lo, hi := Ordinals.Key(b, c1, t.minverse[(b, c1)]), Ordinals.Key(b, c2, t.maxverse[(b, c2)]);
          if lo !in t.bcvs || hi !in t.bcvs then Failure(KeyError)
          else Success((t.bcvs[lo].1, t.bcvs[hi].1))
  }

  function ResolveAll(gs: seq<Reading>, t: Tables): Result<seq<Range>, DailyError> {
    if gs == [] then Success([])
    else
      var r :- Resolve(gs[0], t);
      var rest :- ResolveAll(gs[1..], t);
      Success([r] + rest)
  }

  /** The head of a flattened list is the first reading's items; what follows starts with a string. */
  lemma FlattenHead(gs: seq<Reading>)
    requires gs != []
    ensures Flatten(gs) == ItemsOf(gs[0]) + Flatten(gs[1..])
    ensures Flatten(gs[1..]) != [] ==> Flatten(gs[1..])[0].Str?
  {
  }

  /** The head reading is parsed in its own form whatever follows it, as long as that starts with a string. */
  lemma ParseReading(g: Reading, more: seq<Item>, t: Tables)
    requires more == [] || more[0].Str?
    ensures var items := ItemsOf(g) + more;
      ParseOne(items, t)
      == if Resolve(g, t).Failure? then Failure(Resolve(g, t).error) else Success((Resolve(g, t).value, |ItemsOf(g)|))
  {
    var items := ItemsOf(g) + more;
    assert items[0] == Str(g.book);
    if g.Chapters? {
      assert items[1] == Int(g.chapter1) && items[2] == Int(g.chapter2);
      assert |items| > 3 ==> items[3] == more[0];
    } else {
      assert items[1] == Int(g.chapter1) && items[2] == Int(g.verse1);
      assert items[3] == Int(g.chapter2) && items[4] == Int(g.verse2);
    }
  }

  /** Parsing a flattened list of readings resolves each reading in turn: neither form is mistaken for the other. */
  lemma {:induction false} ParseFlatten(gs: seq<Reading>, t: Tables)
    ensures ParseAll(Flatten(gs), t) == ResolveAll(gs, t)
  {
    if gs != [] {
      var items := Flatten(gs);
      FlattenHead(gs);
      ParseReading(gs[0], Flatten(gs[1..]), t);
      var one := ParseOne(items, t);
      if one.Success? {
        assert items[one.value.1..] == Flatten(gs[1..]);
        ParseFlatten(gs[1..], t);
      }
    }
  }

  // ---------------------------------------------------------------------
  // ordranges.sort()

  /** Python's tuple order on ranges. */
  predicate LessEq(a: Range, b: Range) {
    a.0 < b.0 || (a.0 == b.0 && a.1 <= b.1)
  }

  /** Each range is at most the next; LessEq is a total order, so this is sortedness. */
  predicate SortedRanges(s: seq<Range>) {
    forall k :: 0 <= k < |s| - 1 ==> LessEq(s[k], s[k + 1])
  }

  function Insert(x: Range, s: seq<Range>): (r: seq<Range>)
    ensures |r| == |s| + 1
    ensures r[0] == x || (s != [] && r[0] == s[0])
    ensures multiset(r) == multiset(s) + multiset{x}
  {
    if s == [] then [x]
    else if LessEq(x, s[0]) then [x] + s
    else
      assert s == [s[0]] + s[1..];
      [s[0]] + Insert(x, s[1..])
  }

  lemma {:induction false} InsertSorted(x: Range, s: seq<Range>)
    requires SortedRanges(s)
    ensures SortedRanges(Insert(x, s))
  {
    if s != [] && !LessEq(x, s[0]) {
      var tail := s[1..];
      assert SortedRanges(tail) by {
        assert forall k :: 0 <= k < |tail| ==> tail[k] == s[k + 1];
      }
      InsertSorted(x, tail);
      var rest := Insert(x, tail);
      var r := Insert(x, s);
      assert r == [s[0]] + rest;
      assert LessEq(s[0], rest[0]);
      assert forall k :: 1 <= k < |r| ==> r[k] == rest[k - 1];
    }
  }

  /** The sorted arrangement of s. */
  function SortRanges(s: seq<Range>): (r: seq<Range>)
    ensures multiset(r) == multiset(s)
  {
    if s == [] then []
    else
      assert s == [s[0]] + s[1..];
      Insert(s[0], SortRanges(s[1..]))
  }

  lemma {:induction false} SortRangesSorted(s: seq<Range>)
    ensures SortedRanges(SortRanges(s))
  {
    if s != [] {
      SortRangesSorted(s[1..]);
      InsertSorted(s[0], SortRanges(s[1..]));
    }
  }

  // ---------------------------------------------------------------------
  // The backward merge

  /** Each range ends before the next begins: the assertion of the merge loop. */
  predicate Separated(s: seq<Range>) {
    forall k :: 0 <= k < |s| - 1 ==> s[k].1 < s[k + 1].0
  }

  /** Separated with at least one ordinal between neighbours: nothing is left to merge. */
  predicate Apart(s: seq<Range>) {
    forall k :: 0 <= k < |s| - 1 ==> s[k].1 + 1 < s[k + 1].0
  }

  /** No range is empty. */
  predicate Proper(s: seq<Range>) {
    forall k :: 0 <= k < |s| ==> s[k].0 <= s[k].1
  }

  /** The ordinal x lies in one of the ranges. */
  predicate Covered(s: seq<Range>, x: int) {
    s != [] && ((s[0].0 <= x <= s[0].1) || Covered(s[1..], x))
  }

  /**
   * The merge of a non-empty sorted list, done as the loop does it: the
   * tail first, then the head is checked against the next range and
   * absorbed into it when they touch.
   */
  function MergeFrom(s: seq<Range>): (r: Result<seq<Range>, DailyError>)
    requires s != []
    ensures r.Success? ==> 1 <= |r.value| <= |s|
    ensures r.Success? ==> r.value[0].0 == s[0].0 && r.value[|r.value| - 1].1 == s[|s| - 1].1
    ensures r.Failure? ==> r.error == AssertionFailed
  {
    if |s| == 1 then Success(s)
    else
      var rest :- MergeFrom(s[1..]);
      if !(s[0].1 < s[1].0) then Failure(AssertionFailed)
      else if s[0].1 + 1 == s[1].0 then Success([(s[0].0, rest[0].1)] + rest[1..])
      else Success([s[0]] + rest)
  }

  function Merged(s: seq<Range>): Result<seq<Range>, DailyError> {
    if s == [] then Success([]) else MergeFrom(s)
  }

  /** filter(None, ordranges) */
  function Somes(a: seq<Option<Range>>): seq<Range> {
    if a == [] then [] else (if a[0].Some? then [a[0].value] else []) + Somes(a[1..])
  }

  /** A failure anywhere in the tail is a failure of the whole merge. */
  lemma {:induction false} MergeFailureSpreads(s: seq<Range>, j: nat)
    requires j < |s| && MergeFrom(s[j..]).Failure?
    ensures MergeFrom(s).Failure?
    decreases j
  {
    if j > 0 {
      assert s[1..][j - 1..] == s[j..];
      MergeFailureSpreads(s[1..], j - 1);
    }
  }

  /**
   * The merge loop over a list of optional ranges, walked from the second
   * last position down to the first.
   */
  method MergeRanges(s: seq<Range>) returns (r: Result<seq<Range>, DailyError>)
    ensures r == Merged(s)
  {
    if s == [] {
      return Success([]);
    }
    var a := new Option<Range>[|s|](k requires 0 <= k < |s| => Some(s[k]));
    var i := |s| - 2;
    assert s[i + 1..] == [s[|s| - 1]];
    SomesAt(a[..], i + 1);
    while i >= 0
      invariant Merging(s, a[..], i)
      decreases i
    {
      var cur, next := a[i].value, a[i + 1].value;
      if !(cur.1 < next.0) {
        MergingFails(s, a[..], i);
        return Failure(AssertionFailed);
      }
      MergingStep(s, a[..], i);
      if cur.1 + 1 == next.0 {
        a[i] := Some((cur.0, next.1));
        a[i + 1] := None;
      }
      i := i - 1;
    }
    MergingDone(s, a[..]);
    return Success(Somes(a[..]));
  }

  /**
   * The state of the merge loop before position i is visited: everything
   * up to i as it was, and from i + 1 on, the merge of the tail of s with
   * the gaps it leaves as None.
   */
  ghost predicate Merging(s: seq<Range>, v: seq<Option<Range>>, i: int) {
    |v| == |s| && -1 <= i <= |s| - 2
    && (forall k :: 0 <= k <= i ==> v[k] == Some(s[k]))
    && MergeFrom(s[i + 1..]).Success?
    && v[i + 1].Some? && v[i + 1].value.0 == s[i + 1].0
    && Somes(v[i + 1..]) == MergeFrom(s[i + 1..]).value
  }

  /** The loop body when the assertion holds. */
  function MergeNext(v: seq<Option<Range>>, i: nat): seq<Option<Range>>
    requires i + 1 < |v| && v[i].Some? && v[i + 1].Some?
  {
    if v[i].value.1 + 1 == v[i + 1].value.0
    then v[i := Some((v[i].value.0, v[i + 1].value.1))][i + 1 := None]
    else v
  }

  lemma MergingStep(s: seq<Range>, v: seq<Option<Range>>, i: int)
    requires Merging(s, v, i) && i >= 0 && v[i].value.1 < v[i + 1].value.0
    ensures Merging(s, MergeNext(v, i), i - 1)
  {
    MergeUnfold(s, i);
    SomesAt(v, i + 1);
    if v[i].value.1 + 1 == v[i + 1].value.0 {
      var v' := MergeNext(v, i);
      assert v'[i + 2..] == v[i + 2..];
      assert v[i] == Some(s[i]);
      MergingJoin(s, v, i, MergeFrom(s[i + 1..]).value, v');
    } else {
      SomesAt(v, i);
    }
  }

  lemma MergingJoin(s: seq<Range>, v: seq<Option<Range>>, i: nat, rest: seq<Range>, v': seq<Option<Range>>)
    requires i + 1 < |s| == |v| == |v'|
    requires forall k :: 0 <= k < i ==> v'[k] == Some(s[k])
    requires v[i + 1].Some? && rest == [v[i + 1].value] + Somes(v[i + 2..])
    requires MergeFrom(s[i..]) == Success([(s[i].0, rest[0].1)] + rest[1..])
    requires v'[i] == Some((s[i].0, v[i + 1].value.1)) && v'[i + 1] == None && v'[i + 2..] == v[i + 2..]
    ensures Merging(s, v', i - 1)
  {
    SomesAt(v', i + 1);
    SomesAt(v', i);
    assert Somes(v'[i..]) == [(s[i].0, rest[0].1)] + rest[1..];
    assert s[i - 1 + 1..] == s[i..] && v'[i - 1 + 1..] == v'[i..];
  }

  /** filter(None, ·) of a suffix, one element at a time. */
  lemma SomesAt(v: seq<Option<Range>>, j: nat)
    requires j < |v|
    ensures Somes(v[j..]) == (if v[j].Some? then [v[j].value] else []) + Somes(v[j + 1..])
  {
    assert v[j..][1..] == v[j + 1..];
  }

  lemma MergingFails(s: seq<Range>, v: seq<Option<Range>>, i: int)
    requires Merging(s, v, i) && i >= 0 && !(v[i].value.1 < v[i + 1].value.0)
    ensures Merged(s) == Failure(AssertionFailed)
  {
    MergeUnfold(s, i);
    MergeFailureSpreads(s, i);
  }

  lemma MergingDone(s: seq<Range>, v: seq<Option<Range>>)
    requires Merging(s, v, -1)
    ensures Merged(s) == Success(Somes(v))
  {
    assert v[0..] == v && s[0..] == s;
  }

  /** One step of the merge, read from position i. */
  lemma MergeUnfold(s: seq<Range>, i: nat)
    requires i + 1 < |s| && MergeFrom(s[i + 1..]).Success?
    ensures var rest := MergeFrom(s[i + 1..]).value;
      MergeFrom(s[i..])
      == if !(s[i].1 < s[i + 1].0) then Failure(AssertionFailed)
         else if s[i].1 + 1 == s[i + 1].0 then Success([(s[i].0, rest[0].1)] + rest[1..])
         else Success([s[i]] + rest)
  {
    assert s[i..][1..] == s[i + 1..];
  }

  /** The merge fails exactly when some range does not end before the next begins. */
  lemma {:induction false} MergeSucceedsIff(s: seq<Range>)
    ensures Merged(s).Success? <==> Separated(s)
  {
    if |s| > 1 {
      MergeSucceedsIff(s[1..]);
      assert Separated(s) <==> s[0].1 < s[1].0 && Separated(s[1..]) by {
        assert forall k :: 0 <= k < |s| - 1 ==> s[1..][k] == s[k + 1];
      }
    }
  }

  /** A merged list is sorted with a gap between every two ranges. */
  lemma {:induction false} MergedApart(s: seq<Range>)
    requires Merged(s).Success?
    ensures Apart(Merged(s).value)
  {
    if |s| > 1 {
      MergedApart(s[1..]);
      var rest := MergeFrom(s[1..]).value;
      var r := Merged(s).value;
      if s[0].1 + 1 == s[1].0 {
        assert r[1..] == rest[1..];
        assert forall k :: 1 <= k < |r| ==> r[k] == rest[1..][k - 1];
      } else {
        assert r[1..] == rest;
        assert forall k :: 1 <= k < |r| ==> r[k] == rest[k - 1];
      }
    }
  }

  /** Merging keeps every range non-empty and covers exactly the ordinals the input covers. */
  lemma {:induction false} MergedCovers(s: seq<Range>, x: int)
    requires Proper(s) && Merged(s).Success?
    ensures Proper(Merged(s).value)
    ensures Covered(Merged(s).value, x) <==> Covered(s, x)
  {
    if |s| > 1 {
      MergedCovers(s[1..], x);
      var rest := MergeFrom(s[1..]).value;
      var r := Merged(s).value;
      assert r[1..] == (if s[0].1 + 1 == s[1].0 then rest[1..] else rest);
      if s[0].1 + 1 == s[1].0 {
        assert rest[0].0 <= rest[0].1;
        assert Covered(rest, x) <==> (rest[0].0 <= x <= rest[0].1) || Covered(rest[1..], x);
      }
    }
  }

  /** A list with gaps between its ranges is left as it is. */
  lemma {:induction false} ApartIsMerged(s: seq<Range>)
    requires Apart(s)
    ensures Merged(s) == Success(s)
  {
    if |s| > 1 {
      assert Apart(s[1..]) by {
        assert forall k :: 0 <= k < |s| - 1 ==> s[1..][k] == s[k + 1];
      }
      ApartIsMerged(s[1..]);
      assert s == [s[0]] + s[1..];
    }
  }

  /** Merging is idempotent. */
  lemma MergeIdempotent(s: seq<Range>)
    requires Merged(s).Success?
    ensures Merged(Merged(s).value) == Merged(s)
  {
    MergedApart(s);
    ApartIsMerged(Merged(s).value);
  }

  // ---------------------------------------------------------------------
  // One code of daily.json, and all of them

  /** The ranges stored for one code. */
  function DailyRanges(items: seq<Item>, t: Tables): Result<seq<Range>, DailyError> {
    var ranges :- ParseAll(items, t);
    Merged(SortRanges(ranges))
  }

  method ReadingRanges(items: seq<Item>, t: Tables) returns (r: Result<seq<Range>, DailyError>)
    ensures r == DailyRanges(items, t)
  {
    var ordranges := ParseRanges(items, t);
    if ordranges.Failure? {
      return Failure(ordranges.error);
    }
    r := MergeRanges(SortRanges(ordranges.value));
  }

  /** A code's ranges exist exactly when the items parse and, once sorted, are separated; they then have gaps between them. */
  lemma DailyRangesIff(items: seq<Item>, t: Tables)
    ensures DailyRanges(items, t).Success?
      <==> ParseAll(items, t).Success? && Separated(SortRanges(ParseAll(items, t).value))
    ensures DailyRanges(items, t).Success? ==> Apart(DailyRanges(items, t).value)
  {
    if ParseAll(items, t).Success? {
      var sorted := SortRanges(ParseAll(items, t).value);
      MergeSucceedsIff(sorted);
      if Merged(sorted).Success? {
        MergedApart(sorted);
      }
    }
  }

  datatype Topic = Topic(kind: string, code: string, ordinal1: int, ordinal2: int)

  function TopicsOf(code: string, ranges: seq<Range>): (r: seq<Topic>)
    ensures |r| == |ranges|
    ensures forall k :: 0 <= k < |r| ==> r[k] == Topic("daily", code, ranges[k].0, ranges[k].1)
  {
    if ranges == [] then [] else [Topic("daily", code, ranges[0].0, ranges[0].1)] + TopicsOf(code, ranges[1..])
  }

  /** The topics of codes in the order given, or the first error. */
  function AllTopics(entries: seq<(string, seq<Item>)>, t: Tables): Result<seq<Topic>, DailyError>
    decreases |entries|
  {
    if entries == [] then Success([])
    else
      var last := entries[|entries| - 1];
      var before :- AllTopics(entries[..|entries| - 1], t);
      var ranges :- DailyRanges(last.1, t);
      Success(before + TopicsOf(last.0, ranges))
  }

  /** The loop over `sorted(dailydata.items())`, appending to `topics`. */
  method CollectTopics(entries: seq<(string, seq<Item>)>, t: Tables) returns (r: Result<seq<Topic>, DailyError>)
    ensures r == AllTopics(entries, t)
  {
    var topics: seq<Topic> := [];
    for i := 0 to |entries|
      invariant AllTopics(entries[..i], t) == Success(topics)
    {
      assert entries[..i + 1][..i] == entries[..i];
      var ranges := ReadingRanges(entries[i].1, t);
      if ranges.Failure? {
        assert AllTopics(entries[..i + 1], t).Failure?;
        MissingTopicsSpread(entries, t, i + 1);
        return Failure(ranges.error);
      }
      topics := topics + TopicsOf(entries[i].0, ranges.value);
    }
    assert entries[..|entries|] == entries;
    return Success(topics);
  }

  /** Once a prefix of the codes fails, the whole list does. */
  lemma {:induction false} MissingTopicsSpread(entries: seq<(string, seq<Item>)>, t: Tables, n: nat)
    requires n <= |entries| && AllTopics(entries[..n], t).Failure?
    ensures AllTopics(entries, t) == AllTopics(entries[..n], t)
    decreases |entries| - n
  {
    if n < |entries| {
      assert entries[..n + 1][..n] == entries[..n];
      MissingTopicsSpread(entries, t, n + 1);
    } else {
      assert entries[..n] == entries;
    }
  }
}
