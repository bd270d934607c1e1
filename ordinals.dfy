/**
 * The verse numbering of populate.py: walking the distinct (book,
 * chapter, verse) keys in sorted order assigns each a global ordinal and
 * an index within its book, and records the least and greatest verse of
 * every chapter; `append_maxgap` then finds, per version, the largest
 * step between consecutive ordinals the version has text for.
 */
module Ordinals {
  import opened Wrappers

  datatype Key = Key(book: int, chapter: int, verse: int)

  /** Python's tuple order on (book, chapter, verse). */
  predicate Less(a: Key, b: Key) {
    a.book < b.book
    || (a.book == b.book && (a.chapter < b.chapter || (a.chapter == b.chapter && a.verse < b.verse)))
  }

  /** sorted(bcvs.keys()): the keys of a dict, so strictly increasing. */
  predicate StrictlySorted(keys: seq<Key>) {
    forall i, j :: 0 <= i < j < |keys| ==> Less(keys[i], keys[j])
  }

  /** The number of keys before position j that belong to book b. */
  function CountBook(keys: seq<Key>, j: nat, b: int): (r: nat)
    requires j <= |keys|
    ensures r <= j
  {
    if j == 0 then 0 else CountBook(keys, j - 1, b) + (if keys[j - 1].book == b then 1 else 0)
  }

  /** The index of key j within its book. */
  function Index(keys: seq<Key>, j: nat): nat
    requires j < |keys|
  {
    CountBook(keys, j, keys[j].book)
  }

  /** `index.get(b, 0)` */
  function Get(index: map<int, nat>, b: int): nat {
    if b in index then index[b] else 0
  }

  /** A chapter: (book, chapter). */
  function ChapterOf(k: Key): (int, int) {
    (k.book, k.chapter)
  }

  /** minverse after n keys: every chapter seen so far, mapped to its least verse so far. */
  ghost predicate Lows(keys: seq<Key>, n: nat, mv: map<(int, int), int>)
    requires n <= |keys|
  {
    (forall j :: 0 <= j < n ==> ChapterOf(At(keys, j)) in mv && mv[ChapterOf(At(keys, j))] <= At(keys, j).verse)
    && (forall ch :: ch in mv ==> exists j :: 0 <= j < n && ChapterOf(At(keys, j)) == ch && At(keys, j).verse == mv[ch])
  }

  /** maxverse after n keys: every chapter seen so far, mapped to its greatest verse so far. */
  ghost predicate Highs(keys: seq<Key>, n: nat, mv: map<(int, int), int>)
    requires n <= |keys|
  {
    (forall j :: 0 <= j < n ==> ChapterOf(At(keys, j)) in mv && mv[ChapterOf(At(keys, j))] >= At(keys, j).verse)
    && (forall ch :: ch in mv ==> exists j :: 0 <= j < n && ChapterOf(At(keys, j)) == ch && At(keys, j).verse == mv[ch])
  }

  /**
   * keys[j] under a name of its own, so that the numbering invariant is
   * instantiated only where it is asked about and not for every key that
   * unfolding Index brings up.
   */
  function At(keys: seq<Key>, j: nat): (k: Key)
    requires j < |keys|
    ensures k in keys
  {
    keys[j]
  }

  /** bcvs after n keys: each of the first n keys, and nothing else, numbered (index, ordinal). */
  ghost predicate Numbered(keys: seq<Key>, n: nat, bcvs: map<Key, (nat, nat)>)
    requires n <= |keys|
  {
    (forall j :: 0 <= j < n ==> At(keys, j) in bcvs && bcvs[At(keys, j)] == (Index(keys, j), j))
    && (forall k :: k in bcvs ==> bcvs[k].1 < n && keys[bcvs[k].1] == k)
  }

  /** The per-book counters after n keys. */
  ghost predicate Counted(keys: seq<Key>, n: nat, index: map<int, nat>)
    requires n <= |keys|
  {
    forall b {:trigger Get(index, b)} :: Get(index, b) == CountBook(keys, n, b)
  }

  lemma NumberedStep(keys: seq<Key>, n: nat, bcvs: map<Key, (nat, nat)>, idx: nat)
    requires n < |keys| && Numbered(keys, n, bcvs) && idx == Index(keys, n)
    requires forall j :: 0 <= j < n ==> keys[j] != keys[n]
    ensures Numbered(keys, n + 1, bcvs[keys[n] := (idx, n)])
  {
    var k := keys[n];
    var bcvs' := bcvs[k := (idx, n)];
    forall j | 0 <= j < n
      ensures At(keys, j) in bcvs' && bcvs'[At(keys, j)] == (Index(keys, j), j)
    {
    }

  }

  lemma CountedStep(keys: seq<Key>, n: nat, index: map<int, nat>)
    requires n < |keys| && Counted(keys, n, index)
    ensures Counted(keys, n + 1, index[keys[n].book := Get(index, keys[n].book) + 1])
  {
    var k := keys[n];
    var index' := index[k.book := Get(index, k.book) + 1];
    forall b
      ensures Get(index', b) == CountBook(keys, n + 1, b)
    {
      assert Get(index, b) == CountBook(keys, n, b);
      assert CountBook(keys, n + 1, b) == CountBook(keys, n, b) + (if k.book == b then 1 else 0);
    }
  }

  /**
   * The numbering loop.  bcvs maps every key to (index, ordinal);
   * minverse and maxverse map every chapter that occurs to its least and
   * greatest verse.
   */
  method AssignOrdinals(keys: seq<Key>)
    returns (bcvs: map<Key, (nat, nat)>, minverse: map<(int, int), int>, maxverse: map<(int, int), int>)
    requires StrictlySorted(keys)
    ensures Numbered(keys, |keys|, bcvs)
    ensures Lows(keys, |keys|, minverse) && Highs(keys, |keys|, maxverse)
  {
    bcvs, minverse, maxverse := map[], map[], map[];
    var index: map<int, nat> := map[];
    var ordinal := 0;
    while ordinal < |keys|
      invariant 0 <= ordinal <= |keys|
      invariant Numbered(keys, ordinal, bcvs) && Counted(keys, ordinal, index)
      invariant Lows(keys, ordinal, minverse) && Highs(keys, ordinal, maxverse)
    {
      bcvs, index := NumberKey(keys, ordinal, bcvs, index);
      minverse, maxverse := NoteVerse(keys, ordinal, minverse, maxverse);
      ordinal := ordinal + 1;
    }
  }

  /** The numbering of one loop step: the key gets (index within its book, ordinal), and its book's counter moves on. */
  method NumberKey(keys: seq<Key>, n: nat, bcvs: map<Key, (nat, nat)>, index: map<int, nat>)
    returns (numbered: map<Key, (nat, nat)>, counters: map<int, nat>)
    requires StrictlySorted(keys) && n < |keys| && Numbered(keys, n, bcvs) && Counted(keys, n, index)
    ensures Numbered(keys, n + 1, numbered) && Counted(keys, n + 1, counters)
  {
    var k := keys[n];
    var idx := Get(index, k.book);
    EarlierKeysDiffer(keys, n);
    NumberedStep(keys, n, bcvs, idx);
    CountedStep(keys, n, index);
    numbered := bcvs[k := (idx, n)];
    counters := index[k.book := idx + 1];
  }

  /** The two chapter-bound updates of one loop step. */
  method NoteVerse(keys: seq<Key>, n: nat, minverse: map<(int, int), int>, maxverse: map<(int, int), int>)
    returns (lows: map<(int, int), int>, highs: map<(int, int), int>)
    requires n < |keys| && Lows(keys, n, minverse) && Highs(keys, n, maxverse)
    ensures Lows(keys, n + 1, lows) && Highs(keys, n + 1, highs)
  {
    var k := keys[n];
    var ch := ChapterOf(k);
    lows, highs := minverse, maxverse;
    if ch !in lows || lows[ch] > k.verse {
      lows := lows[ch := k.verse];
    }
    if ch !in highs || highs[ch] < k.verse {
      highs := highs[ch := k.verse];
    }
    LowsStep(keys, n, minverse, lows);
    HighsStep(keys, n, maxverse, highs);
  }

  lemma EarlierKeysDiffer(keys: seq<Key>, n: nat)
    requires StrictlySorted(keys) && n < |keys|
    ensures forall j :: 0 <= j < n ==> keys[j] != keys[n]
  {
    forall j | 0 <= j < n
      ensures keys[j] != keys[n]
    {
      assert Less(keys[j], keys[n]);
    }
  }

  lemma LowsStep(keys: seq<Key>, n: nat, mv: map<(int, int), int>, mv': map<(int, int), int>)
    requires n < |keys| && Lows(keys, n, mv)
    requires var k := keys[n];
      mv' == if ChapterOf(k) !in mv || mv[ChapterOf(k)] > k.verse then mv[ChapterOf(k) := k.verse] else mv
    ensures Lows(keys, n + 1, mv')
  {
    var k := keys[n];
    forall ch | ch in mv'
      ensures exists j :: 0 <= j < n + 1 && ChapterOf(At(keys, j)) == ch && At(keys, j).verse == mv'[ch]
    {
      if ch == ChapterOf(k) && mv'[ch] == k.verse {
        assert ChapterOf(At(keys, n)) == ch;
      } else {
        var j :| 0 <= j < n && ChapterOf(At(keys, j)) == ch && At(keys, j).verse == mv[ch];
      }
    }
  }

  lemma HighsStep(keys: seq<Key>, n: nat, mv: map<(int, int), int>, mv': map<(int, int), int>)
    requires n < |keys| && Highs(keys, n, mv)
    requires var k := keys[n];
      mv' == if ChapterOf(k) !in mv || mv[ChapterOf(k)] < k.verse then mv[ChapterOf(k) := k.verse] else mv
    ensures Highs(keys, n + 1, mv')
  {
    var k := keys[n];
    forall ch | ch in mv'
      ensures exists j :: 0 <= j < n + 1 && ChapterOf(At(keys, j)) == ch && At(keys, j).verse == mv'[ch]
    {
      if ch == ChapterOf(k) && mv'[ch] == k.verse {
        assert ChapterOf(At(keys, n)) == ch;
      } else {
        var j :| 0 <= j < n && ChapterOf(At(keys, j)) == ch && At(keys, j).verse == mv[ch];
      }
    }
  }

  /** minverse and maxverse cover the same chapters, and each chapter's least verse is at most its greatest. */
  lemma VerseBounds(keys: seq<Key>, minverse: map<(int, int), int>, maxverse: map<(int, int), int>, ch: (int, int))
    requires Lows(keys, |keys|, minverse) && Highs(keys, |keys|, maxverse)
    ensures ch in minverse <==> ch in maxverse
    ensures ch in minverse ==> minverse[ch] <= maxverse[ch]
  {
    if ch in minverse {
      var j :| 0 <= j < |keys| && ChapterOf(At(keys, j)) == ch && At(keys, j).verse == minverse[ch];
    }
    if ch in maxverse {
      var j :| 0 <= j < |keys| && ChapterOf(At(keys, j)) == ch && At(keys, j).verse == maxverse[ch];
    }
  }

  /** Sorted keys group each book together: everything between two keys of a book is of that book. */
  lemma BooksContiguous(keys: seq<Key>, i: nat, k: nat, j: nat)
    requires StrictlySorted(keys) && i <= k <= j < |keys| && keys[i].book == keys[j].book
    ensures keys[k].book == keys[i].book
  {
    if i < k {
      assert Less(keys[i], keys[k]);
    }
    if k < j {
      assert Less(keys[k], keys[j]);
    }
  }

  lemma {:induction false} CountRun(keys: seq<Key>, i: nat, j: nat)
    requires StrictlySorted(keys) && i <= j < |keys| && keys[i].book == keys[j].book
    ensures CountBook(keys, j, keys[i].book) == CountBook(keys, i, keys[i].book) + (j - i)
    decreases j - i
  {
    if i < j {
      BooksContiguous(keys, i, j - 1, j);
      CountRun(keys, i, j - 1);
    }
  }

  /** Within a book, the ordinal and the index step together: ordinal - index is the same for all its verses. */
  lemma OrdinalMinusIndexConstant(keys: seq<Key>, i: nat, j: nat)
    requires StrictlySorted(keys) && i < |keys| && j < |keys| && keys[i].book == keys[j].book
    ensures i - Index(keys, i) == j - Index(keys, j)
  {
    if i <= j {
      CountRun(keys, i, j);
    } else {
      CountRun(keys, j, i);
    }
  }

  lemma {:induction false} CountEarlierBooks(keys: seq<Key>, j: nat, b: int)
    requires StrictlySorted(keys) && j <= |keys|
    requires forall i :: 0 <= i < j ==> keys[i].book < b
    ensures CountBook(keys, j, b) == 0
  {
    if j > 0 {
      CountEarlierBooks(keys, j - 1, b);
    }
  }

  /** A book's indices start at 0 on its first verse and run without gaps. */
  lemma IndexStartsAtZero(keys: seq<Key>, j: nat)
    requires StrictlySorted(keys) && j < |keys|
    ensures Index(keys, j) == 0 <==> j == 0 || keys[j - 1].book != keys[j].book
  {
    var b := keys[j].book;
    if j > 0 && keys[j - 1].book != b {
      forall i | 0 <= i < j
        ensures keys[i].book < b
      {
        assert Less(keys[i], keys[j]);
        if keys[i].book == b {
          BooksContiguous(keys, i, j - 1, j);
        }
      }
      CountEarlierBooks(keys, j, b);
    }
  }

  // ---------------------------------------------------------------------
  // append_maxgap
  // ---------------------------------------------------------------------

  /** A row of the `data` list: the version and the ordinal it has text for. */
  datatype Row = Row(version: string, ordinal: int)

  datatype GapError = AssertionFailed | EmptyMax

  /** [ordinal for ibv, ordinal, _, _ in data if bv == ibv] */
  function OrdinalsOf(rows: seq<Row>, bv: string): seq<int> {
    if rows == [] then []
    else (if rows[0].version == bv then [rows[0].ordinal] else []) + OrdinalsOf(rows[1..], bv)
  }

  predicate Sorted(s: seq<int>) {
    forall i, j :: 0 <= i < j < |s| ==> s[i] <= s[j]
  }

  /** max(o2 - o1 for o1, o2 in zip(ords, ords[1:])), for at least two ordinals. */
  function LargestGap(ords: seq<int>): (r: int)
    requires |ords| >= 2
    ensures forall i :: 0 <= i < |ords| - 1 ==> ords[i + 1] - ords[i] <= r
    ensures exists i :: 0 <= i < |ords| - 1 && ords[i + 1] - ords[i] == r
  {
    var first := ords[1] - ords[0];
    if |ords| == 2 then first
    else
      var rest := LargestGap(ords[1..]);
      assert forall i :: 1 <= i < |ords| - 1 ==> ords[i + 1] - ords[i] == ords[1..][i] - ords[1..][i - 1];
      if first < rest then rest else first
  }

  /** The maxgap of version bv: 0 without verses, a failure of `max` with exactly one. */
  function MaxGap(rows: seq<Row>, bv: string): Result<int, GapError> {
    var ords := OrdinalsOf(rows, bv);
    if !Sorted(ords) then Failure(AssertionFailed)
    else if ords == [] then Success(0)
    else if |ords| == 1 then Failure(EmptyMax)
    else Success(LargestGap(ords))
  }

  /** Sorted ordinals have no negative gap. */
  lemma MaxGapNonNegative(rows: seq<Row>, bv: string)
    requires MaxGap(rows, bv).Success?
    ensures MaxGap(rows, bv).value >= 0
  {
    var ords := OrdinalsOf(rows, bv);
    if |ords| >= 2 {
      assert ords[0] <= ords[1];
    }
  }

  /** A lower bound on the ordinals of version bv's rows bounds the list of them. */
  lemma {:induction false} OrdinalsAbove(rows: seq<Row>, bv: string, x: int)
    requires forall i :: 0 <= i < |rows| && rows[i].version == bv ==> x <= rows[i].ordinal
    ensures forall k :: 0 <= k < |OrdinalsOf(rows, bv)| ==> x <= OrdinalsOf(rows, bv)[k]
  {
    if rows != [] {
      assert forall i :: 0 <= i < |rows[1..]| ==> rows[1..][i] == rows[i + 1];
      OrdinalsAbove(rows[1..], bv, x);
    }
  }

  /** The ordinals of one version keep the order of the rows. */
  lemma {:induction false} OrdinalsInOrder(rows: seq<Row>, bv: string)
    requires forall i, j :: 0 <= i < j < |rows| && rows[i].version == bv && rows[j].version == bv ==> rows[i].ordinal <= rows[j].ordinal
    ensures Sorted(OrdinalsOf(rows, bv))
  {
    if rows != [] {
      var tail := rows[1..];
      assert forall i :: 0 <= i < |tail| ==> tail[i] == rows[i + 1];
      OrdinalsInOrder(tail, bv);
      var rest := OrdinalsOf(tail, bv);
      if rows[0].version == bv {
        OrdinalsAbove(tail, bv, rows[0].ordinal);
        var ords := [rows[0].ordinal] + rest;
        forall i, j | 0 <= i < j < |ords|
          ensures ords[i] <= ords[j]
        {
          assert ords[j] == rest[j - 1];
          if i > 0 {
            assert ords[i] == rest[i - 1];
          }
        }
      }
    }
  }

  /**
   * The data list is sorted by (version, ordinal), so no version trips
   * the assertion: its maxgap is 0, a failure of `max` for a single
   * verse, or the largest step.
   */
  lemma SortedDataPasses(rows: seq<Row>, bv: string)
    requires forall i, j :: 0 <= i < j < |rows| && rows[i].version == bv && rows[j].version == bv ==> rows[i].ordinal <= rows[j].ordinal
    ensures MaxGap(rows, bv).Success? <==> |OrdinalsOf(rows, bv)| != 1
  {
    OrdinalsInOrder(rows, bv);
  }
}
