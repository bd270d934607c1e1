/**
 * The alias catalogue of mappings.py: an Entry is a code plus keyword
 * fields and extra aliases; Entries is a list of entries that answers
 * lookups by code, by alias or by either, from maps that it builds lazily
 * and caches until it is invalidated.
 */
module Catalog {
  import opened Wrappers
  import opened TextUtil

  /** A keyword argument of Entry(...): the tables use strings, years, flags and one list. */
  datatype Value = Text(s: string) | Number(n: int) | Flag(b: bool) | Texts(items: seq<string>)

  /** Entry(code, others=[...], **fields); `others` is popped from the keywords into a set. */
  datatype Entry = Entry(code: string, others: set<string>, fields: map<string, Value>) {
    /** Entry.all_values: the extra aliases plus the values of the public keyword fields. */
    function AllValues(): set<string> {
      others + set name | name in fields && IsPublicText(this, name) :: fields[name].s
    }
  }

  /** Keyword names starting with '_' (_lang, _year, ...) are data, never aliases. */
  predicate IsPrivate(name: string) {
    |name| > 0 && name[0] == '_'
  }

  predicate IsPublicText(e: Entry, name: string) {
    name in e.fields && !IsPrivate(name) && e.fields[name].Text?
  }

  /** Without keyword fields, the aliases are the extra ones. */
  lemma OthersOnly(e: Entry)
    requires e.fields == map[]
    ensures e.AllValues() == e.others
  {
  }

  /** A private keyword field contributes no alias, whatever its value: setting it leaves the aliases as they are. */
  lemma PrivateFieldIrrelevant(e: Entry, name: string, x: Value)
    requires IsPrivate(name)
    ensures e.(fields := e.fields[name := x]).AllValues() == e.AllValues()
  {
    var e' := e.(fields := e.fields[name := x]);
    forall other ensures IsPublicText(e', other) <==> IsPublicText(e, other) {
      if other == name {
        assert IsPrivate(other);
      }
    }
  }

  /** A new public text field adds exactly its value to the aliases. */
  lemma PublicFieldIsAlias(e: Entry, name: string, v: string)
    requires !IsPrivate(name) && name !in e.fields
    ensures e.(fields := e.fields[name := Text(v)]).AllValues() == e.AllValues() + {v}
  {
    var e' := e.(fields := e.fields[name := Text(v)]);
    assert IsPublicText(e', name) && e'.fields[name].s == v;
    forall other | other != name ensures IsPublicText(e', other) <==> IsPublicText(e, other) {
    }
  }

  /** Entry.__str__: an entry prints as its code. */
  function Str(e: Entry): string {
    e.code
  }

  /** Python 2's cmp on two strings: lexicographic by code point. */
  function CompareStrings(a: string, b: string): (r: int)
    ensures r in {-1, 0, 1}
    ensures r == 0 <==> a == b
  {
    if a == [] && b == [] then 0
    else if a == [] then -1
    else if b == [] then 1
    else if a[0] < b[0] then -1
    else if a[0] > b[0] then 1
    else CompareStrings(a[1..], b[1..])
  }

  /** Entry.__cmp__: entries compare by code alone, so two entries are equal under == exactly when their codes are. */
  function Compare(a: Entry, b: Entry): (r: int)
    ensures r == 0 <==> Str(a) == Str(b)
  {
    CompareStrings(a.code, b.code)
  }

  lemma {:induction false} CompareStringsAntisymmetric(a: string, b: string)
    ensures CompareStrings(a, b) == -CompareStrings(b, a)
  {
    if a != [] && b != [] && a[0] == b[0] {
      CompareStringsAntisymmetric(a[1..], b[1..]);
    }
  }

  /** Swapping the operands of __cmp__ negates the result. */
  lemma CompareAntisymmetric(a: Entry, b: Entry)
    ensures Compare(a, b) == -Compare(b, a)
  {
    CompareStringsAntisymmetric(a.code, b.code);
  }

  /** The key a code is stored under in code2entry: code.strip().lower(). */
  function CodeKey(code: string): string {
    Lower(Strip(code))
  }

  /** The key of an alias in value2entry, and of every from_value / from_any query: u''.join(s.split()).lower(). */
  function ValueKey(s: string): (r: string)
    ensures NoSpace(r)
  {
    LowerSquash(s);
    Lower(Squash(s))
  }

  /** Inserting or removing whitespace anywhere, or changing the case of ASCII letters, does not change the key. */
  lemma ValueKeyIgnoresSpacingAndCase(s: string)
    ensures ValueKey(Squash(s)) == ValueKey(s)
    ensures ValueKey(Lower(s)) == ValueKey(s)
    ensures ValueKey(ValueKey(s)) == ValueKey(s)
  {
    SquashIdempotent(s);
    LowerSquash(s);
    LowerSquash(Lower(s));
    LowerIdempotent(Squash(s));
    SquashNoSpace(Lower(Squash(s)));
  }

  /** A string whose last character is not whitespace never has the empty key. */
  lemma SolidKey(s: string)
    requires |s| > 0 && !IsSpace(s[|s| - 1])
    ensures ValueKey(s) != ""
  {
    SquashKeepsLast(s);
  }

  /** Removing whitespace keeps a non-blank last character. */
  lemma {:induction false} SquashKeepsLast(s: string)
    requires |s| > 0 && !IsSpace(s[|s| - 1])
    ensures Squash(s) != []
  {
    if IsSpace(s[0]) {
      assert s[1..][|s[1..]| - 1] == s[|s| - 1];
      SquashKeepsLast(s[1..]);
    }
  }

  function ValueKeys(e: Entry): set<string> {
    set v | v in e.AllValues() :: ValueKey(v)
  }

  function Last(es: seq<Entry>): Entry
    requires es != []
  {
    es[|es| - 1]
  }

  function Init(es: seq<Entry>): seq<Entry>
    requires es != []
  {
    es[..|es| - 1]
  }

  /** code2entry as _refresh leaves it: entries stored in list order, so a later entry overwrites an earlier one. */
  function CodeMap(es: seq<Entry>): map<string, Entry> {
    if es == [] then map[] else CodeMap(Init(es))[CodeKey(Last(es).code) := Last(es)]
  }

  /** value2entry as _refresh leaves it. */
  function ValueMap(es: seq<Entry>): map<string, Entry> {
    if es == [] then map[] else ValueMap(Init(es)) + map k | k in ValueKeys(Last(es)) :: Last(es)
  }

  /** _indices as _refresh leaves it: raw code to list position. */
  function IndexMap(es: seq<Entry>): map<string, nat> {
    if es == [] then map[] else IndexMap(Init(es))[Last(es).code := |es| - 1]
  }

  /** code2entry holds exactly the code keys of the entries, each mapped to an entry with that key. */
  lemma CodeMapDomain(es: seq<Entry>)
    ensures forall k :: k in CodeMap(es) <==> exists i :: 0 <= i < |es| && CodeKey(es[i].code) == k
    ensures forall k :: k in CodeMap(es) ==> CodeMap(es)[k] in es && CodeKey(CodeMap(es)[k].code) == k
  {
    CodeMapKeys(es);
    CodeMapValues(es);
  }

  lemma CodeMapKeys(es: seq<Entry>)
    ensures forall k :: k in CodeMap(es) <==> exists i :: 0 <= i < |es| && CodeKey(es[i].code) == k
  {
    forall k
      ensures k in CodeMap(es) <==> exists i :: 0 <= i < |es| && CodeKey(es[i].code) == k
    {
      CodeMapHasKey(es, k);
    }
  }

  /** A key is in code2entry iff some entry has it as its code key. */
  lemma {:induction false} CodeMapHasKey(es: seq<Entry>, k: string)
    ensures k in CodeMap(es) <==> exists i :: 0 <= i < |es| && CodeKey(es[i].code) == k
  {
    if es != [] {
      var init, last := Init(es), Last(es);
      CodeMapHasKey(init, k);
      if k == CodeKey(last.code) {
        assert es[|es| - 1] == last;
      } else if k in CodeMap(init) {
        var i :| 0 <= i < |init| && CodeKey(init[i].code) == k;
        assert es[i] == init[i];
      } else {
        forall i | 0 <= i < |es|
          ensures CodeKey(es[i].code) != k
        {
          if i < |init| {
            assert es[i] == init[i];
            assert !(0 <= i < |init| && CodeKey(init[i].code) == k);
          } else {
            assert i == |es| - 1;
          }
        }
      }
    }
  }

  lemma {:induction false} CodeMapValues(es: seq<Entry>)
    ensures forall k :: k in CodeMap(es) ==> CodeMap(es)[k] in es && CodeKey(CodeMap(es)[k].code) == k
  {
    if es != [] {
      var init, last := Init(es), Last(es);
      CodeMapValues(init);
      var m, before := CodeMap(es), CodeMap(init);
      assert m == before[CodeKey(last.code) := last];
      assert last in es;
      forall k | k in m
        ensures m[k] in es && CodeKey(m[k].code) == k
      {
        if k != CodeKey(last.code) {
          assert m[k] == before[k];
          var i :| 0 <= i < |init| && init[i] == before[k];
          assert es[i] == init[i];
        }
      }
    }
  }

  /** value2entry holds exactly the alias keys of the entries, each mapped to an entry having that alias. */
  lemma ValueMapDomain(es: seq<Entry>)
    ensures forall k :: k in ValueMap(es) <==> exists i :: 0 <= i < |es| && k in ValueKeys(es[i])
    ensures forall k :: k in ValueMap(es) ==> ValueMap(es)[k] in es && k in ValueKeys(ValueMap(es)[k])
  {
    ValueMapKeys(es);
    ValueMapValues(es);
  }

  lemma {:induction false} ValueMapKeys(es: seq<Entry>)
    ensures forall k :: k in ValueMap(es) <==> exists i :: 0 <= i < |es| && k in ValueKeys(es[i])
  {
    if es != [] {
      var init, last := Init(es), Last(es);
      ValueMapKeys(init);
      var m, before := ValueMap(es), ValueMap(init);
      assert m == before + map k | k in ValueKeys(last) :: last;
      forall k
        ensures k in m <==> exists i :: 0 <= i < |es| && k in ValueKeys(es[i])
      {
        if k in ValueKeys(last) {
          assert es[|es| - 1] == last;
        } else if k in before {
          var i :| 0 <= i < |init| && k in ValueKeys(init[i]);
          assert es[i] == init[i];
        } else {
          forall i | 0 <= i < |es|
            ensures k !in ValueKeys(es[i])
          {
            if i < |init| {
              assert es[i] == init[i];
            } else {
              assert es[i] == last;
            }
          }
        }
      }
    }
  }

  lemma {:induction false} ValueMapValues(es: seq<Entry>)
    ensures forall k :: k in ValueMap(es) ==> ValueMap(es)[k] in es && k in ValueKeys(ValueMap(es)[k])
  {
    if es != [] {
      var init, last := Init(es), Last(es);
      ValueMapValues(init);
      var m, before := ValueMap(es), ValueMap(init);
      assert m == before + map k | k in ValueKeys(last) :: last;
      assert last in es;
      forall k | k in m
        ensures m[k] in es && k in ValueKeys(m[k])
      {
        if k !in ValueKeys(last) {
          assert m[k] == before[k];
          var i :| 0 <= i < |init| && init[i] == before[k];
          assert es[i] == init[i];
        }
      }
    }
  }

  /** indices holds exactly the raw codes, each mapped to a position holding that code. */
  lemma {:induction false} IndexMapDomain(es: seq<Entry>)
    ensures forall c :: c in IndexMap(es) <==> exists i :: 0 <= i < |es| && es[i].code == c
    ensures forall c :: c in IndexMap(es) ==> IndexMap(es)[c] < |es| && es[IndexMap(es)[c]].code == c
  {
    if es != [] {
      IndexMapDomain(Init(es));
      assert forall i :: 0 <= i < |es| - 1 ==> Init(es)[i] == es[i];
    }
  }

  /** When several entries share a code key, code2entry keeps the last of them. */
  lemma {:induction false} CodeMapLastWins(es: seq<Entry>, i: nat)
    requires i < |es|
    requires forall j :: i < j < |es| ==> CodeKey(es[j].code) != CodeKey(es[i].code)
    ensures CodeKey(es[i].code) in CodeMap(es) && CodeMap(es)[CodeKey(es[i].code)] == es[i]
  {
    var k := CodeKey(es[i].code);
    if i < |es| - 1 {
      var init := Init(es);
      assert init[i] == es[i];
      forall j | i < j < |init| ensures CodeKey(init[j].code) != k {
        assert init[j] == es[j];
      }
      CodeMapLastWins(init, i);
      assert CodeKey(Last(es).code) != k;
    }
  }

  /** When several entries share an alias key, value2entry keeps the last of them. */
  lemma {:induction false} ValueMapLastWins(es: seq<Entry>, i: nat, k: string)
    requires i < |es| && k in ValueKeys(es[i])
    requires forall j :: i < j < |es| ==> k !in ValueKeys(es[j])
    ensures k in ValueMap(es) && ValueMap(es)[k] == es[i]
  {
    if i < |es| - 1 {
      var init := Init(es);
      assert init[i] == es[i];
      forall j | i < j < |init| ensures k !in ValueKeys(init[j]) {
        assert init[j] == es[j];
      }
      ValueMapLastWins(init, i, k);
      assert k !in ValueKeys(Last(es));
    }
  }

  /** With no later entry of the same code, indices maps that code to its position. */
  lemma {:induction false} IndexMapPositions(es: seq<Entry>, i: nat)
    requires i < |es|
    requires forall j :: i < j < |es| ==> es[j].code != es[i].code
    ensures es[i].code in IndexMap(es) && IndexMap(es)[es[i].code] == i
  {
    if i < |es| - 1 {
      var init := Init(es);
      assert init[i] == es[i];
      forall j | i < j < |init| ensures init[j].code != es[i].code {
        assert init[j] == es[j];
      }
      IndexMapPositions(init, i);
    }
  }

  predicate DistinctCodes(es: seq<Entry>) {
    forall i, j :: 0 <= i < j < |es| ==> es[i].code != es[j].code
  }

  lemma IndexMapBijection(es: seq<Entry>)
    requires DistinctCodes(es)
    ensures forall i :: 0 <= i < |es| ==> es[i].code in IndexMap(es) && IndexMap(es)[es[i].code] == i
    ensures forall n :: n in IndexMap(es).Values <==> 0 <= n < |es|
  {
    IndexMapDomain(es);
    forall i | 0 <= i < |es| ensures es[i].code in IndexMap(es) && IndexMap(es)[es[i].code] == i {
      IndexMapPositions(es, i);
    }
    var m := IndexMap(es);
    forall n | n in m.Values ensures 0 <= n < |es| {
    }
    forall n | 0 <= n < |es| ensures n in m.Values {
      assert m[es[n].code] == n;
    }
  }

  datatype LookupError = KeyError(key: string)

  function Find(m: map<string, Entry>, key: string): Result<Entry, LookupError> {
    if key in m then Success(m[key]) else Failure(KeyError(key))
  }

  /** from_code over the list es: only the ends are trimmed before the lower-cased lookup. */
  function FromCodeIn(es: seq<Entry>, code: string): (r: Result<Entry, LookupError>)
    ensures r.Success? <==> exists i :: 0 <= i < |es| && CodeKey(es[i].code) == CodeKey(code)
    ensures r.Success? ==> r.value in es && CodeKey(r.value.code) == CodeKey(code)
    ensures r.Failure? ==> r.error == KeyError(CodeKey(code))
  {
    CodeMapDomain(es);
    Find(CodeMap(es), CodeKey(code))
  }

  /** from_value over the list es: all whitespace removed before the lower-cased lookup among aliases. */
  function FromValueIn(es: seq<Entry>, value: string): (r: Result<Entry, LookupError>)
    ensures r.Success? <==> exists i :: 0 <= i < |es| && ValueKey(value) in ValueKeys(es[i])
    ensures r.Success? ==> r.value in es && ValueKey(value) in ValueKeys(r.value)
    ensures r.Failure? ==> r.error == KeyError(ValueKey(value))
  {
    ValueMapDomain(es);
    Find(ValueMap(es), ValueKey(value))
  }

  /**
   * from_any over the list es: the whitespace-free, lower-cased key is
   * looked up among the codes first and among the aliases only when no
   * code matches; a miss in both is a KeyError.
   */
  function FromAnyIn(es: seq<Entry>, s: string): (r: Result<Entry, LookupError>)
    ensures r.Success? <==> exists i :: 0 <= i < |es| && (CodeKey(es[i].code) == ValueKey(s) || ValueKey(s) in ValueKeys(es[i]))
    ensures r.Success? ==> r.value in es
    ensures r.Failure? ==> r.error == KeyError(ValueKey(s))
  {
    CodeMapDomain(es);
    ValueMapDomain(es);
    var k := ValueKey(s);
    if k in CodeMap(es) then Success(CodeMap(es)[k]) else Find(ValueMap(es), k)
  }

  /** Codes take priority: an entry whose code key is the query wins over any entry that has the query as an alias. */
  lemma CodeBeforeAlias(es: seq<Entry>, s: string, i: nat)
    requires i < |es| && CodeKey(es[i].code) == ValueKey(s)
    requires forall j :: i < j < |es| ==> CodeKey(es[j].code) != CodeKey(es[i].code)
    ensures FromAnyIn(es, s) == Success(es[i])
  {
    CodeMapLastWins(es, i);
  }

  /** A code whose key no other entry shares, and which is already its own alias key, resolves by from_code and by from_any. */
  lemma UniqueCodeResolves(es: seq<Entry>, i: nat)
    requires i < |es| && ValueKey(es[i].code) == CodeKey(es[i].code)
    requires forall j :: 0 <= j < |es| && j != i ==> CodeKey(es[j].code) != CodeKey(es[i].code)
    ensures FromCodeIn(es, es[i].code) == Success(es[i])
    ensures FromAnyIn(es, es[i].code) == Success(es[i])
  {
    CodeMapLastWins(es, i);
  }

  /** An alias is reached by from_any only when no code has its key; then the last entry with that alias wins. */
  lemma AliasWhenNoCode(es: seq<Entry>, s: string, i: nat)
    requires i < |es| && ValueKey(s) in ValueKeys(es[i])
    requires forall j :: 0 <= j < |es| ==> CodeKey(es[j].code) != ValueKey(s)
    requires forall j :: i < j < |es| ==> ValueKey(s) !in ValueKeys(es[j])
    ensures FromAnyIn(es, s) == Success(es[i])
    ensures FromAnyIn(es, s) == FromValueIn(es, s)
  {
    CodeMapDomain(es);
    assert ValueKey(s) !in CodeMap(es);
    ValueMapLastWins(es, i, ValueKey(s));
  }

  /** Queries that differ only in whitespace and ASCII case resolve to the same result. */
  lemma FromAnyNormalizes(es: seq<Entry>, s: string, t: string)
    requires Squash(Lower(s)) == Squash(Lower(t))
    ensures FromAnyIn(es, s) == FromAnyIn(es, t)
    ensures FromValueIn(es, s) == FromValueIn(es, t)
  {
    LowerSquash(s);
    LowerSquash(t);
  }

  /** Entries.all_values: the union of every entry's aliases. */
  function AllValuesOf(es: seq<Entry>): (r: set<string>)
    ensures forall v :: v in r <==> exists i :: 0 <= i < |es| && v in es[i].AllValues()
  {
    if es == [] then {} else
      assert forall i :: 0 <= i < |es| - 1 ==> Init(es)[i] == es[i];
      AllValuesOf(Init(es)) + Last(es).AllValues()
  }

  /** Entries.all_codes: the set of raw codes. */
  function AllCodesOf(es: seq<Entry>): (r: set<string>)
    ensures r == IndexMap(es).Keys
  {
    IndexMapDomain(es);
    set i | 0 <= i < |es| :: es[i].code
  }

  /** values with every key of keys mapped to entry. */
  ghost function Overwrite(values: map<string, Entry>, keys: set<string>, entry: Entry): map<string, Entry> {
    values + map k | k in keys :: entry
  }

  lemma OverwriteOneMore(values: map<string, Entry>, keys: set<string>, k: string, entry: Entry)
    ensures Overwrite(values, keys, entry)[k := entry] == Overwrite(values, keys + {k}, entry)
  {
  }

  /** The inner loop of _refresh: every alias of the entry, normalised, is mapped to the entry. */
  method StoreAliases(values: map<string, Entry>, entry: Entry) returns (r: map<string, Entry>)
    ensures r == values + map k | k in ValueKeys(entry) :: entry
  {
    r := values;
    var pending := entry.AllValues();
    ghost var done: set<string> := {};
    ghost var doneKeys: set<string> := {};
    assert values == Overwrite(values, {}, entry);
    while pending != {}
      invariant pending + done == entry.AllValues()
      invariant forall v :: v in done ==> ValueKey(v) in doneKeys
      invariant doneKeys <= ValueKeys(entry)
      invariant r == Overwrite(values, doneKeys, entry)
    {
      var v :| v in pending;
      OverwriteOneMore(values, doneKeys, ValueKey(v), entry);
      r := r[ValueKey(v) := entry];
      pending, done, doneKeys := pending - {v}, done + {v}, doneKeys + {ValueKey(v)};
    }
    forall k | k in ValueKeys(entry) ensures k in doneKeys {
      var v :| v in entry.AllValues() && ValueKey(v) == k;
      assert v in done;
    }
    assert doneKeys == ValueKeys(entry);
  }

  /** The loop of _refresh: one pass over the list in order, later entries overwriting earlier ones. */
  method BuildMaps(es: seq<Entry>) returns (codes: map<string, Entry>, values: map<string, Entry>, indices: map<string, nat>)
    ensures codes == CodeMap(es) && values == ValueMap(es) && indices == IndexMap(es)
  {
    codes, values, indices := map[], map[], map[];
    var i := 0;
    while i < |es|
      invariant 0 <= i <= |es|
      invariant codes == CodeMap(es[..i])
      invariant values == ValueMap(es[..i])
      invariant indices == IndexMap(es[..i])
    {
      var entry := es[i];
      assert Init(es[..i + 1]) == es[..i] && Last(es[..i + 1]) == entry;
      codes := codes[CodeKey(entry.code) := entry];
      indices := indices[entry.code := i];
      values := StoreAliases(values, entry);
      i := i + 1;
    }
    assert es[..i] == es;
  }

  /**
   * Entries: the entry list with its three caches. Lookups build the caches
   * from the current list when code2entry or value2entry is unset, and
   * otherwise answer from the caches as they are; Invalidate unsets them.
   */
  class Entries {
    var items: seq<Entry>
    var code2entry: Option<map<string, Entry>>
    var value2entry: Option<map<string, Entry>>
    var indexCache: Option<map<string, nat>>

    /** Once the two lookup caches are set, the index cache has been set with them. */
    ghost predicate Valid()
      reads this
    {
      code2entry.Some? && value2entry.Some? ==> indexCache.Some?
    }

    /** The caches describe the current list. */
    ghost predicate Current()
      reads this
    {
      code2entry == Some(CodeMap(items)) && value2entry == Some(ValueMap(items)) && indexCache == Some(IndexMap(items))
    }

    ghost predicate NeedsRefresh()
      reads this
    {
      code2entry.None? || value2entry.None?
    }

    /** Entries(*args): the list, with no cache built yet. */
    constructor (args: seq<Entry>)
      ensures Valid() && items == args
      ensures code2entry.None? && value2entry.None? && indexCache.None?
    {
      items := args;
      code2entry, value2entry, indexCache := None, None, None;
    }

    /** invalidate: both lookup caches unset, so that the next lookup rebuilds. */
    method Invalidate()
      requires Valid()
      modifies this
      ensures Valid() && NeedsRefresh()
      ensures code2entry.None? && value2entry.None?
      ensures items == old(items) && indexCache == old(indexCache)
    {
      code2entry, value2entry := None, None;
    }

    /** _refresh: all three caches rebuilt from the current list. */
    method Refresh()
      modifies this
      ensures Valid() && Current() && items == old(items)
    {
      var es := items;
      var codes, values, indices := BuildMaps(es);
      code2entry, value2entry, indexCache := Some(codes), Some(values), Some(indices);
      assert items == es;
    }

    /** _refresh_if_needed: rebuild only when a lookup cache is unset. */
    method RefreshIfNeeded()
      requires Valid()
      modifies this
      ensures Valid() && !NeedsRefresh() && items == old(items)
      ensures old(NeedsRefresh()) ==> Current()
      ensures !old(NeedsRefresh()) ==> code2entry == old(code2entry) && value2entry == old(value2entry) && indexCache == old(indexCache)
    {
      if code2entry.None? || value2entry.None? {
        Refresh();
      }
    }

    /** The indices property. */
    method Indices() returns (m: map<string, nat>)
      requires Valid()
      modifies this
      ensures Valid() && !NeedsRefresh() && items == old(items)
      ensures old(NeedsRefresh()) || old(Current()) ==> Current()
      ensures !old(NeedsRefresh()) ==> code2entry == old(code2entry) && value2entry == old(value2entry) && indexCache == old(indexCache)
      ensures Some(m) == indexCache
      ensures Current() ==> m == IndexMap(items)
    {
      RefreshIfNeeded();
      m := indexCache.value;
    }

    /** from_code: a KeyError when the trimmed, lower-cased code is not a code key. */
    method FromCode(code: string) returns (r: Result<Entry, LookupError>)
      requires Valid()
      modifies this
      ensures Valid() && !NeedsRefresh() && items == old(items)
      ensures old(NeedsRefresh()) || old(Current()) ==> Current()
      ensures !old(NeedsRefresh()) ==> code2entry == old(code2entry) && value2entry == old(value2entry) && indexCache == old(indexCache)
      ensures r == Find(code2entry.value, CodeKey(code))
      ensures Current() ==> r == FromCodeIn(items, code)
    {
      RefreshIfNeeded();
      r := Find(code2entry.value, CodeKey(code));
    }

    /** from_value: a KeyError when the whitespace-free, lower-cased value is not an alias key. */
    method FromValue(value: string) returns (r: Result<Entry, LookupError>)
      requires Valid()
      modifies this
      ensures Valid() && !NeedsRefresh() && items == old(items)
      ensures old(NeedsRefresh()) || old(Current()) ==> Current()
      ensures !old(NeedsRefresh()) ==> code2entry == old(code2entry) && value2entry == old(value2entry) && indexCache == old(indexCache)
      ensures r == Find(value2entry.value, ValueKey(value))
      ensures Current() ==> r == FromValueIn(items, value)
    {
      RefreshIfNeeded();
      r := Find(value2entry.value, ValueKey(value));
    }

    /** from_any: codes first, then aliases; a KeyError when neither has the key. */
    method FromAny(s: string) returns (r: Result<Entry, LookupError>)
      requires Valid()
      modifies this
      ensures Valid() && !NeedsRefresh() && items == old(items)
      ensures old(NeedsRefresh()) || old(Current()) ==> Current()
      ensures !old(NeedsRefresh()) ==> code2entry == old(code2entry) && value2entry == old(value2entry) && indexCache == old(indexCache)
      ensures var k := ValueKey(s); r == if k in code2entry.value then Success(code2entry.value[k]) else Find(value2entry.value, k)
      ensures Current() ==> r == FromAnyIn(items, s)
    {
      RefreshIfNeeded();
      var k := ValueKey(s);
      if k in code2entry.value {
        r := Success(code2entry.value[k]);
      } else {
        r := Find(value2entry.value, k);
      }
    }

    /** Entries.all_values, which reads the list and not the caches. */
    function AllValues(): (r: set<string>)
      reads this
      ensures forall v :: v in r <==> exists i :: 0 <= i < |items| && v in items[i].AllValues()
    {
      AllValuesOf(items)
    }

    /** Entries.all_codes, which reads the list and not the caches. */
    function AllCodes(): (r: set<string>)
      reads this
      ensures r == IndexMap(items).Keys
      ensures Current() ==> r == indexCache.value.Keys
    {
      AllCodesOf(items)
    }
  }
}
