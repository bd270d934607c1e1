/**
 * The shipped tables of mappings.py: sixteen translations, sixty-six books
 * and the default translation code, with the facts about them that the
 * rest of the model relies on.
 */
module CatalogData {
  import opened Wrappers
  import opened TextUtil
  import opened Catalog

  /** DEFAULT_VER */
  const DefaultVer: string := "kjav"

  /** The i-th entry of the versions table. */
  function Version(i: nat): Entry
    requires i < 16
  {
    match i
    case 0 => Entry("kjv", {},
        map["_lang" := Text("en"), "_year" := Number(1611), "_blessed" := Flag(true), "_copyright" := Text("퍼블릭 도메인; 영국 내에서는 출판 허가가 필요"), "en" := Text("KJV"), "eng" := Text("King James Version")])
    case 1 => Entry("nasv", {},
        map["_lang" := Text("en"), "_year" := Number(1970), "_blessed" := Flag(false), "_copyright" := Text("Lockman Foundation"), "en" := Text("NASV"), "eng" := Text("New American Standard Version")])
    case 2 => Entry("niv", {},
        map["_lang" := Text("en"), "_year" := Number(1978), "_blessed" := Flag(false), "_copyright" := Text("International Bible Society"), "en" := Text("NIV"), "eng" := Text("New International Version")])
    case 3 => Entry("nkjv", {},
        map["_lang" := Text("en"), "_year" := Number(1983), "_blessed" := Flag(false), "_copyright" := Text("Thomas Nelson, Inc."), "en" := Text("NKJV"), "eng" := Text("New King James Version")])
    case 4 => Entry("nlt", {},
        map["_lang" := Text("en"), "_year" := Number(1996), "_blessed" := Flag(false), "_copyright" := Text("Tyndale House Publisher"), "en" := Text("NLT"), "eng" := Text("New Living Translation")])
    case 5 => Entry("nrsv", {},
        map["_lang" := Text("en"), "_year" := Number(1989), "_blessed" := Flag(false), "_copyright" := Text("National Council of Churches of Christ"), "en" := Text("NRSV"), "eng" := Text("New Revised Version")])
    case 6 => Entry("nwt", {},
        map["_lang" := Text("en"), "_year" := Number(1984), "_blessed" := Flag(false), "_copyright" := Text("Watchtower Society"), "en" := Text("NWT"), "eng" := Text("New World Translation")])
    case 7 => Entry("krv", {},
        map["_lang" := Text("ko"), "_year" := Number(1961), "_blessed" := Flag(false), "_copyright" := Text("대한성서공회"), "ko" := Text("개역"), "kor" := Text("개역성경"), "eng" := Text("Korean Revised Version")])
    case 8 => Entry("nkrv", {},
        map["_lang" := Text("ko"), "_year" := Number(1998), "_blessed" := Flag(false), "_copyright" := Text("대한성서공회"), "ko" := Text("개정"), "kor" := Text("개역 개정판"), "eng" := Text("New Revised Korean Version"), "_others" := Texts(["개역개정"])])
    case 9 => Entry("ctb", {},
        map["_lang" := Text("ko"), "_year" := Number(1977), "_blessed" := Flag(false), "_copyright" := Text("대한성서공회"), "ko" := Text("공동"), "kor" := Text("공동번역"), "eng" := Text("Common Translation Bible")])
    case 10 => Entry("kav", {},
        map["_lang" := Text("ko"), "_year" := Number(2001), "_blessed" := Flag(false), "_copyright" := Text("퍼블릭 도메인 (안티오크 하우스)"), "ko" := Text("권위역"), "kor" := Text("권위역"), "eng" := Text("Korean Authorized Version")])
    case 11 => Entry("nksb", {},
        map["_lang" := Text("ko"), "_year" := Number(1993), "_blessed" := Flag(false), "_copyright" := Text("대한성서공회"), "ko" := Text("표준"), "kor" := Text("표준새번역"), "eng" := Text("New Korean Standard Bible")])
    case 12 => Entry("kkjv", {},
        map["_lang" := Text("ko"), "_year" := Number(1994), "_blessed" := Flag(false), "_copyright" := Text("말씀보존학회"), "ko" := Text("한킹"), "kor" := Text("한글 킹제임스 성경"), "eng" := Text("Korean King James Version")])
    case 13 => Entry("tkv", {},
        map["_lang" := Text("ko"), "_year" := Number(1991), "_blessed" := Flag(false), "_copyright" := Text("성경원"), "ko" := Text("현대어"), "kor" := Text("현대어성경"), "eng" := Text("Today's Korean Version")])
    case 14 => Entry("klb", {},
        map["_lang" := Text("ko"), "_year" := Number(1985), "_blessed" := Flag(false), "_copyright" := Text("생명의말씀사"), "ko" := Text("현대인"), "kor" := Text("현대인의성경"), "eng" := Text("Korean Living Bible")])
    case _ => Entry("kjav", {"흠정"},
        map["_lang" := Text("ko"), "_year" := Number(2011), "_blessed" := Flag(true), "_copyright" := Text("그리스도 예수안에"), "ko" := Text("흠정역"), "kor" := Text("킹제임스 흠정역 (5판)"), "eng" := Text("Korean Authorized King James Version")])
  }

  /** versions, in list order. */
  function Versions(): (r: seq<Entry>)
    ensures |r| == 16 && forall i :: 0 <= i < |r| ==> r[i] == Version(i)
  {
    seq(16, i requires 0 <= i < 16 => Version(i))
  }

  /** The i-th entry of the books table; its position is the book number used by the verse store. */
  function Book(i: nat): Entry
    requires i < 66
  {
    match i
    case 0 => Entry("Gen", {},
        map["ko" := Text("창"), "kor" := Text("창세기"), "en" := Text("Gen"), "eng" := Text("Genesis")])
    case 1 => Entry("Exod", {},
        map["ko" := Text("출"), "kor" := Text("출애굽기"), "en" := Text("Exod"), "eng" := Text("Exodus")])
    case 2 => Entry("Lev", {},
        map["ko" := Text("레"), "kor" := Text("레위기"), "en" := Text("Lev"), "eng" := Text("Leviticus")])
    case 3 => Entry("Num", {},
        map["ko" := Text("민"), "kor" := Text("민수기"), "en" := Text("Num"), "eng" := Text("Numbers")])
    case 4 => Entry("Deut", {},
        map["ko" := Text("신"), "kor" := Text("신명기"), "en" := Text("Deut"), "eng" := Text("Deuteronomy")])
    case 5 => Entry("Josh", {},
        map["ko" := Text("수"), "kor" := Text("여호수아"), "en" := Text("Josh"), "eng" := Text("Joshua")])
    case 6 => Entry("Judg", {},
        map["ko" := Text("삿"), "kor" := Text("사사기"), "en" := Text("Judg"), "eng" := Text("Judges")])
    case 7 => Entry("Ruth", {},
        map["ko" := Text("룻"), "kor" := Text("룻기"), "en" := Text("Ruth"), "eng" := Text("Ruth")])
    case 8 => Entry("1Sam", {},
        map["ko" := Text("삼상"), "kor" := Text("사무엘상"), "en" := Text("1Sam"), "eng" := Text("1 Samuel")])
    case 9 => Entry("2Sam", {},
        map["ko" := Text("삼하"), "kor" := Text("사무엘하"), "en" := Text("2Sam"), "eng" := Text("2 Samuel")])
    case 10 => Entry("1Kgs", {},
        map["ko" := Text("왕상"), "kor" := Text("열왕기상"), "en" := Text("1Kgs"), "eng" := Text("1 Kings")])
    case 11 => Entry("2Kgs", {},
        map["ko" := Text("왕하"), "kor" := Text("열왕기하"), "en" := Text("2Kgs"), "eng" := Text("2 Kings")])
    case 12 => Entry("1Chr", {},
        map["ko" := Text("대상"), "kor" := Text("역대상"), "en" := Text("1Chr"), "eng" := Text("1 Chronicles")])
    case 13 => Entry("2Chr", {},
        map["ko" := Text("대하"), "kor" := Text("역대하"), "en" := Text("2Chr"), "eng" := Text("2 Chronicles")])
    case 14 => Entry("Ezra", {},
        map["ko" := Text("스"), "kor" := Text("에스라"), "en" := Text("Ezra"), "eng" := Text("Ezra")])
    case 15 => Entry("Neh", {},
        map["ko" := Text("느"), "kor" := Text("느헤미야"), "en" := Text("Neh"), "eng" := Text("Nehemiah")])
    case 16 => Entry("Esth", {},
        map["ko" := Text("에"), "kor" := Text("에스더"), "en" := Text("Esth"), "eng" := Text("Esther")])
    case 17 => Entry("Job", {},
        map["ko" := Text("욥"), "kor" := Text("욥기"), "en" := Text("Job"), "eng" := Text("Job")])
    case 18 => Entry("Ps", {},
        map["ko" := Text("시"), "kor" := Text("시편"), "en" := Text("Ps"), "eng" := Text("Psalms")])
    case 19 => Entry("Prov", {},
        map["ko" := Text("잠"), "kor" := Text("잠언"), "en" := Text("Prov"), "eng" := Text("Proverbs")])
    case 20 => Entry("Eccl", {},
        map["ko" := Text("전"), "kor" := Text("전도서"), "en" := Text("Eccl"), "eng" := Text("Ecclesiastes")])
    case 21 => Entry("Song", {},
        map["ko" := Text("아"), "kor" := Text("아가"), "en" := Text("Song"), "eng" := Text("Song of Songs")])
    case 22 => Entry("Isa", {},
        map["ko" := Text("사"), "kor" := Text("이사야"), "en" := Text("Isa"), "eng" := Text("Isaiah")])
    case 23 => Entry("Jer", {},
        map["ko" := Text("렘"), "kor" := Text("예레미야"), "en" := Text("Jer"), "eng" := Text("Jeremiah")])
    case 24 => Entry("Lam", {},
        map["ko" := Text("애"), "kor" := Text("예레미야애가"), "en" := Text("Lam"), "eng" := Text("Lamentations")])
    case 25 => Entry("Ezek", {},
        map["ko" := Text("겔"), "kor" := Text("에스겔"), "en" := Text("Ezek"), "eng" := Text("Ezekiel")])
    case 26 => Entry("Dan", {},
        map["ko" := Text("단"), "kor" := Text("다니엘"), "en" := Text("Dan"), "eng" := Text("Daniel")])
    case 27 => Entry("Hos", {},
        map["ko" := Text("호"), "kor" := Text("호세아"), "en" := Text("Hos"), "eng" := Text("Hosea")])
    case 28 => Entry("Joel", {},
        map["ko" := Text("욜"), "kor" := Text("요엘"), "en" := Text("Joel"), "eng" := Text("Joel")])
    case 29 => Entry("Amos", {},
        map["ko" := Text("암"), "kor" := Text("아모스"), "en" := Text("Amos"), "eng" := Text("Amos")])
    case 30 => Entry("Obad", {},
        map["ko" := Text("옵"), "kor" := Text("오바댜"), "en" := Text("Obad"), "eng" := Text("Obadiah")])
    case 31 => Entry("Jnah", {},
        map["ko" := Text("욘"), "kor" := Text("요나"), "en" := Text("Jnah"), "eng" := Text("Jonah")])
    case 32 => Entry("Mic", {},
        map["ko" := Text("미"), "kor" := Text("미가"), "en" := Text("Mic"), "eng" := Text("Micah")])
    case 33 => Entry("Nah", {},
        map["ko" := Text("나"), "kor" := Text("나훔"), "en" := Text("Nah"), "eng" := Text("Nahum")])
    case 34 => Entry("Hab", {},
        map["ko" := Text("합"), "kor" := Text("하박국"), "en" := Text("Hab"), "eng" := Text("Habakkuk")])
    case 35 => Entry("Zeph", {},
        map["ko" := Text("습"), "kor" := Text("스바냐"), "en" := Text("Zeph"), "eng" := Text("Zephaniah")])
    case 36 => Entry("Hag", {},
        map["ko" := Text("학"), "kor" := Text("학개"), "en" := Text("Hag"), "eng" := Text("Haggai")])
    case 37 => Entry("Zech", {},
        map["ko" := Text("슥"), "kor" := Text("스가랴"), "en" := Text("Zech"), "eng" := Text("Zechariah")])
    case 38 => Entry("Mal", {},
        map["ko" := Text("말"), "kor" := Text("말라기"), "en" := Text("Mal"), "eng" := Text("Malachi")])
    case 39 => Entry("Matt", {},
        map["ko" := Text("마"), "kor" := Text("마태복음"), "en" := Text("Matt"), "eng" := Text("Matthew")])
    case 40 => Entry("Mark", {},
        map["ko" := Text("막"), "kor" := Text("마가복음"), "en" := Text("Mark"), "eng" := Text("Mark")])
    case 41 => Entry("Luke", {},
        map["ko" := Text("눅"), "kor" := Text("누가복음"), "en" := Text("Luke"), "eng" := Text("Luke")])
    case 42 => Entry("John", {},
        map["ko" := Text("요"), "kor" := Text("요한복음"), "en" := Text("John"), "eng" := Text("John")])
    case 43 => Entry("Acts", {},
        map["ko" := Text("행"), "kor" := Text("사도행전"), "en" := Text("Acts"), "eng" := Text("Acts")])
    case 44 => Entry("Rom", {},
        map["ko" := Text("롬"), "kor" := Text("로마서"), "en" := Text("Rom"), "eng" := Text("Romans")])
    case 45 => Entry("1Cor", {},
        map["ko" := Text("고전"), "kor" := Text("고린도전서"), "en" := Text("1Cor"), "eng" := Text("1 Corinthians")])
    case 46 => Entry("2Cor", {},
        map["ko" := Text("고후"), "kor" := Text("고린도후서"), "en" := Text("2Cor"), "eng" := Text("2 Corinthians")])
    case 47 => Entry("Gal", {},
        map["ko" := Text("갈"), "kor" := Text("갈라디아서"), "en" := Text("Gal"), "eng" := Text("Galatians")])
    case 48 => Entry("Eph", {},
        map["ko" := Text("엡"), "kor" := Text("에베소서"), "en" := Text("Eph"), "eng" := Text("Ephesians")])
    case 49 => Entry("Phlm", {},
        map["ko" := Text("빌"), "kor" := Text("빌립보서"), "en" := Text("Phlm"), "eng" := Text("Philippians")])
    case 50 => Entry("Col", {},
        map["ko" := Text("골"), "kor" := Text("골로새서"), "en" := Text("Col"), "eng" := Text("Colossians")])
    case 51 => Entry("1Thes", {},
        map["ko" := Text("살전"), "kor" := Text("데살로니가전서"), "en" := Text("1Thes"), "eng" := Text("1 Thessalonians")])
    case 52 => Entry("2Thes", {},
        map["ko" := Text("살후"), "kor" := Text("데살로니가후서"), "en" := Text("2Thes"), "eng" := Text("2 Thessalonians")])
    case 53 => Entry("1Tim", {},
        map["ko" := Text("딤전"), "kor" := Text("디모데전서"), "en" := Text("1Tim"), "eng" := Text("1 Timothy")])
    case 54 => Entry("2Tim", {},
        map["ko" := Text("딤후"), "kor" := Text("디모데후서"), "en" := Text("2Tim"), "eng" := Text("2 Timothy")])
    case 55 => Entry("Titus", {},
        map["ko" := Text("딛"), "kor" := Text("디도서"), "en" := Text("Titus"), "eng" := Text("Titus")])
    case 56 => Entry("Phle", {},
        map["ko" := Text("몬"), "kor" := Text("빌레몬서"), "en" := Text("Phle"), "eng" := Text("Philemon")])
    case 57 => Entry("Heb", {},
        map["ko" := Text("히"), "kor" := Text("히브리서"), "en" := Text("Heb"), "eng" := Text("Hebrews")])
    case 58 => Entry("James", {},
        map["ko" := Text("약"), "kor" := Text("야고보서"), "en" := Text("James"), "eng" := Text("James")])
    case 59 => Entry("1Pet", {},
        map["ko" := Text("벧전"), "kor" := Text("베드로전서"), "en" := Text("1Pet"), "eng" := Text("1 Peter")])
    case 60 => Entry("2Pet", {},
        map["ko" := Text("벧후"), "kor" := Text("베드로후서"), "en" := Text("2Pet"), "eng" := Text("2 Peter")])
    case 61 => Entry("1John", {},
        map["ko" := Text("요일"), "kor" := Text("요한일서"), "en" := Text("1John"), "eng" := Text("1 John")])
    case 62 => Entry("2John", {},
        map["ko" := Text("요이"), "kor" := Text("요한이서"), "en" := Text("2John"), "eng" := Text("2 John")])
    case 63 => Entry("3John", {},
        map["ko" := Text("요삼"), "kor" := Text("요한삼서"), "en" := Text("3John"), "eng" := Text("3 John")])
    case 64 => Entry("Jude", {},
        map["ko" := Text("유"), "kor" := Text("유다서"), "en" := Text("Jude"), "eng" := Text("Jude")])
    case _ => Entry("Rev", {},
        map["ko" := Text("계"), "kor" := Text("요한계시록"), "en" := Text("Rev"), "eng" := Text("Revelation")])
  }

  /** books, in list order. */
  function Books(): (r: seq<Entry>)
    ensures |r| == 66 && forall i :: 0 <= i < |r| ==> r[i] == Book(i)
  {
    seq(66, i requires 0 <= i < 66 => Book(i))
  }

  /** The position of a version code in the table, -1 for any other string. */
  function VersionNumber(code: string): int {
    match code
    case "kjv" => 0
    case "nasv" => 1
    case "niv" => 2
    case "nkjv" => 3
    case "nlt" => 4
    case "nrsv" => 5
    case "nwt" => 6
    case "krv" => 7
    case "nkrv" => 8
    case "ctb" => 9
    case "kav" => 10
    case "nksb" => 11
    case "kkjv" => 12
    case "tkv" => 13
    case "klb" => 14
    case "kjav" => 15
    case _ => -1
  }

  /** The position of a book code in the table, -1 for any other string. */
  function BookNumber(code: string): int {
    match code
    case "Gen" => 0
    case "Exod" => 1
    case "Lev" => 2
    case "Num" => 3
    case "Deut" => 4
    case "Josh" => 5
    case "Judg" => 6
    case "Ruth" => 7
    case "1Sam" => 8
    case "2Sam" => 9
    case "1Kgs" => 10
    case "2Kgs" => 11
    case "1Chr" => 12
    case "2Chr" => 13
    case "Ezra" => 14
    case "Neh" => 15
    case "Esth" => 16
    case "Job" => 17
    case "Ps" => 18
    case "Prov" => 19
    case "Eccl" => 20
    case "Song" => 21
    case "Isa" => 22
    case "Jer" => 23
    case "Lam" => 24
    case "Ezek" => 25
    case "Dan" => 26
    case "Hos" => 27
    case "Joel" => 28
    case "Amos" => 29
    case "Obad" => 30
    case "Jnah" => 31
    case "Mic" => 32
    case "Nah" => 33
    case "Hab" => 34
    case "Zeph" => 35
    case "Hag" => 36
    case "Zech" => 37
    case "Mal" => 38
    case "Matt" => 39
    case "Mark" => 40
    case "Luke" => 41
    case "John" => 42
    case "Acts" => 43
    case "Rom" => 44
    case "1Cor" => 45
    case "2Cor" => 46
    case "Gal" => 47
    case "Eph" => 48
    case "Phlm" => 49
    case "Col" => 50
    case "1Thes" => 51
    case "2Thes" => 52
    case "1Tim" => 53
    case "2Tim" => 54
    case "Titus" => 55
    case "Phle" => 56
    case "Heb" => 57
    case "James" => 58
    case "1Pet" => 59
    case "2Pet" => 60
    case "1John" => 61
    case "2John" => 62
    case "3John" => 63
    case "Jude" => 64
    case "Rev" => 65
    case _ => -1
  }

  /** The _lang field of a version ("" when absent). */
  function Lang(e: Entry): string {
    if "_lang" in e.fields && e.fields["_lang"].Text? then e.fields["_lang"].s else ""
  }

  /** The _blessed field of a version. */
  predicate Blessed(e: Entry) {
    "_blessed" in e.fields && e.fields["_blessed"] == Flag(true)
  }

  /** The _blessed and _lang fields of the versions, four at a time. */
  lemma VersionFields0(i: nat)
    requires i < 4
    ensures Blessed(Version(i)) <==> i == 0 || i == 15
    ensures Lang(Version(i)) == if i < 7 then "en" else "ko"
  {
    assert i == 0 || i == 1 || i == 2 || i == 3;
  }

  lemma VersionFields4(i: nat)
    requires 4 <= i < 8
    ensures Blessed(Version(i)) <==> i == 0 || i == 15
    ensures Lang(Version(i)) == if i < 7 then "en" else "ko"
  {
    assert i == 4 || i == 5 || i == 6 || i == 7;
  }

  lemma VersionFields8(i: nat)
    requires 8 <= i < 12
    ensures Blessed(Version(i)) <==> i == 0 || i == 15
    ensures Lang(Version(i)) == if i < 7 then "en" else "ko"
  {
    assert i == 8 || i == 9 || i == 10 || i == 11;
  }

  lemma VersionFields12(i: nat)
    requires 12 <= i < 16
    ensures Blessed(Version(i)) <==> i == 0 || i == 15
    ensures Lang(Version(i)) == if i < 7 then "en" else "ko"
  {
    assert i == 12 || i == 13 || i == 14 || i == 15;
  }

  /** Exactly one translation per language is blessed: kjv for English, kjav for Korean. */
  lemma OneBlessedPerLanguage()
    ensures forall i, j :: 0 <= i < j < |Versions()| && Lang(Versions()[i]) == Lang(Versions()[j]) ==> !(Blessed(Versions()[i]) && Blessed(Versions()[j]))
    ensures forall i :: 0 <= i < |Versions()| ==> Lang(Versions()[i]) in {"en", "ko"}
    ensures Blessed(Versions()[0]) && Lang(Versions()[0]) == "en" && Versions()[0].code == "kjv"
    ensures Blessed(Versions()[15]) && Lang(Versions()[15]) == "ko" && Versions()[15].code == "kjav"
  {
    forall i | 0 <= i < 16 ensures (Blessed(Version(i)) <==> i == 0 || i == 15) && Lang(Version(i)) == (if i < 7 then "en" else "ko") {
      if i < 4 { VersionFields0(i); }
      else if i < 8 { VersionFields4(i); }
      else if i < 12 { VersionFields8(i); }
      else { VersionFields12(i); }
    }
  }

  /** The code column of the versions table. */
  function VersionCode(i: nat): string
    requires i < 16
  {
    match i
    case 0 => "kjv"
    case 1 => "nasv"
    case 2 => "niv"
    case 3 => "nkjv"
    case 4 => "nlt"
    case 5 => "nrsv"
    case 6 => "nwt"
    case 7 => "krv"
    case 8 => "nkrv"
    case 9 => "ctb"
    case 10 => "kav"
    case 11 => "nksb"
    case 12 => "kkjv"
    case 13 => "tkv"
    case 14 => "klb"
    case _ => "kjav"
  }

  lemma VersionCodeColumn(i: nat)
    requires i < 16
    ensures Version(i).code == VersionCode(i)
  {
  }

  lemma VersionCodes0(i: nat)
    requires 0 <= i < 4
    ensures VersionNumber(VersionCode(i)) == i && LowerLetters(VersionCode(i))
  {
    assert i == 0 || i == 1 || i == 2 || i == 3;
  }

  lemma VersionCodes4(i: nat)
    requires 4 <= i < 8
    ensures VersionNumber(VersionCode(i)) == i && LowerLetters(VersionCode(i))
  {
    assert i == 4 || i == 5 || i == 6 || i == 7;
  }

  lemma VersionCodes8(i: nat)
    requires 8 <= i < 12
    ensures VersionNumber(VersionCode(i)) == i && LowerLetters(VersionCode(i))
  {
    assert i == 8 || i == 9 || i == 10 || i == 11;
  }

  lemma VersionCodes12(i: nat)
    requires 12 <= i < 16
    ensures VersionNumber(VersionCode(i)) == i && LowerLetters(VersionCode(i))
  {
    assert i == 12 || i == 13 || i == 14 || i == 15;
  }

  /** Every version code is already a lookup key, and no two versions share one. */
  lemma VersionCodeKeys()
    ensures forall i :: 0 <= i < |Versions()| ==> CodeKey(Versions()[i].code) == Versions()[i].code == ValueKey(Versions()[i].code)
    ensures forall i, j :: 0 <= i < j < |Versions()| ==> Versions()[i].code != Versions()[j].code
    ensures forall i :: 0 <= i < |Versions()| ==> VersionNumber(Versions()[i].code) == i
  {
    forall i | 0 <= i < 16
      ensures VersionNumber(Version(i).code) == i && CodeKey(Version(i).code) == Version(i).code == ValueKey(Version(i).code)
    {
      VersionCodeColumn(i);
      if i < 4 { VersionCodes0(i); } else if i < 8 { VersionCodes4(i); } else if i < 12 { VersionCodes8(i); } else { VersionCodes12(i); }
      LowerLettersFixed(VersionCode(i));
    }
  }

  lemma BookCodes0(i: nat)
    requires 0 <= i < 6
    ensures BookNumber(Book(i).code) == i
  {
    assert i == 0 || i == 1 || i == 2 || i == 3 || i == 4 || i == 5;
  }

  lemma BookCodes6(i: nat)
    requires 6 <= i < 12
    ensures BookNumber(Book(i).code) == i
  {
    assert i == 6 || i == 7 || i == 8 || i == 9 || i == 10 || i == 11;
  }

  lemma BookCodes12(i: nat)
    requires 12 <= i < 18
    ensures BookNumber(Book(i).code) == i
  {
    assert i == 12 || i == 13 || i == 14 || i == 15 || i == 16 || i == 17;
  }

  lemma BookCodes18(i: nat)
    requires 18 <= i < 24
    ensures BookNumber(Book(i).code) == i
  {
    assert i == 18 || i == 19 || i == 20 || i == 21 || i == 22 || i == 23;
  }

  lemma BookCodes24(i: nat)
    requires 24 <= i < 30
    ensures BookNumber(Book(i).code) == i
  {
    assert i == 24 || i == 25 || i == 26 || i == 27 || i == 28 || i == 29;
  }

  lemma BookCodes30(i: nat)
    requires 30 <= i < 36
    ensures BookNumber(Book(i).code) == i
  {
    assert i == 30 || i == 31 || i == 32 || i == 33 || i == 34 || i == 35;
  }

  lemma BookCodes36(i: nat)
    requires 36 <= i < 42
    ensures BookNumber(Book(i).code) == i
  {
    assert i == 36 || i == 37 || i == 38 || i == 39 || i == 40 || i == 41;
  }

  lemma BookCodes42(i: nat)
    requires 42 <= i < 48
    ensures BookNumber(Book(i).code) == i
  {
    assert i == 42 || i == 43 || i == 44 || i == 45 || i == 46 || i == 47;
  }

  lemma BookCodes48(i: nat)
    requires 48 <= i < 51
    ensures BookNumber(Book(i).code) == i
  {
    assert i == 48 || i == 49 || i == 50;
  }

  lemma BookCodes51(i: nat)
    requires 51 <= i < 54
    ensures BookNumber(Book(i).code) == i
  {
    assert i == 51 || i == 52 || i == 53;
  }

  lemma BookCodes54(i: nat)
    requires 54 <= i < 57
    ensures BookNumber(Book(i).code) == i
  {
    assert i == 54 || i == 55 || i == 56;
  }

  lemma BookCodes57(i: nat)
    requires 57 <= i < 60
    ensures BookNumber(Book(i).code) == i
  {
    assert i == 57 || i == 58 || i == 59;
  }

  lemma BookCodes60(i: nat)
    requires 60 <= i < 63
    ensures BookNumber(Book(i).code) == i
  {
    assert i == 60 || i == 61 || i == 62;
  }

  lemma BookCodes63(i: nat)
    requires 63 <= i < 66
    ensures BookNumber(Book(i).code) == i
  {
    assert i == 63 || i == 64 || i == 65;
  }

  /** The 66 book codes are pairwise distinct. */
  lemma BookCodesDistinct()
    ensures DistinctCodes(Books())
  {
    forall i | 0 <= i < 66 ensures BookNumber(Book(i).code) == i {
      if i < 6 { BookCodes0(i); } else if i < 12 { BookCodes6(i); } else if i < 18 { BookCodes12(i); } else if i < 24 { BookCodes18(i); } else if i < 30 { BookCodes24(i); } else if i < 36 { BookCodes30(i); } else if i < 42 { BookCodes36(i); } else if i < 48 { BookCodes42(i); } else if i < 51 { BookCodes48(i); } else if i < 54 { BookCodes51(i); } else if i < 57 { BookCodes54(i); } else if i < 60 { BookCodes57(i); } else if i < 63 { BookCodes60(i); } else { BookCodes63(i); }
    }
  }

  /** books.indices maps each book code to its position: a bijection onto 0..65. */
  lemma BookIndices()
    ensures forall i :: 0 <= i < |Books()| ==> Books()[i].code in IndexMap(Books()) && IndexMap(Books())[Books()[i].code] == i
    ensures forall n :: n in IndexMap(Books()).Values <==> 0 <= n < 66
    ensures forall c :: c in IndexMap(Books()) <==> exists i :: 0 <= i < 66 && Books()[i].code == c
  {
    BookCodesDistinct();
    IndexMapBijection(Books());
    IndexMapDomain(Books());
  }

  /** Every version resolves from its own code, by from_code and by from_any. */
  lemma VersionResolvesByCode(i: nat)
    requires i < |Versions()|
    ensures FromCodeIn(Versions(), Versions()[i].code) == Success(Versions()[i])
    ensures FromAnyIn(Versions(), Versions()[i].code) == Success(Versions()[i])
  {
    VersionCodeKeys();
    var vs := Versions();
    UniqueCodeResolves(vs, i);
  }

  /** DEFAULT_VER names an existing version: the blessed Korean kjav. */
  lemma DefaultVerExists()
    ensures FromCodeIn(Versions(), DefaultVer) == Success(Versions()[15])
    ensures FromAnyIn(Versions(), DefaultVer) == Success(Versions()[15])
    ensures Blessed(Versions()[15])
  {
    OneBlessedPerLanguage();
    VersionResolvesByCode(15);
  }

  /** A string that ends with a non-blank character. */
  predicate Solid(s: string) {
    |s| > 0 && !IsSpace(s[|s| - 1])
  }

  /** The extra aliases and the text fields of e all end with a non-blank character. */
  predicate SolidTexts(e: Entry) {
    (forall v :: v in e.others ==> Solid(v))
    && forall name :: name in e.fields && e.fields[name].Text? ==> Solid(e.fields[name].s)
  }

  lemma SolidAliases(e: Entry)
    requires SolidTexts(e)
    ensures forall v :: v in e.AllValues() ==> Solid(v)
  {
  }

  /** The text fields of the versions, one row at a time (the rows are large literals). */
  lemma VersionTexts0()
    ensures SolidTexts(Version(0))
  {
    TextsSolid0();
  }

  lemma TextsSolid0()
    ensures Solid("en") && Solid("퍼블릭 도메인; 영국 내에서는 출판 허가가 필요") && Solid("KJV") && Solid("King James Version")
  {
  }

  lemma VersionTexts1()
    ensures SolidTexts(Version(1))
  {
    TextsSolid1();
  }

  lemma TextsSolid1()
    ensures Solid("en") && Solid("Lockman Foundation") && Solid("NASV") && Solid("New American Standard Version")
  {
  }

  lemma VersionTexts2()
    ensures SolidTexts(Version(2))
  {
    TextsSolid2();
  }

  lemma TextsSolid2()
    ensures Solid("en") && Solid("International Bible Society") && Solid("NIV") && Solid("New International Version")
  {
  }

  lemma VersionTexts3()
    ensures SolidTexts(Version(3))
  {
    TextsSolid3();
  }

  lemma TextsSolid3()
    ensures Solid("en") && Solid("Thomas Nelson, Inc.") && Solid("NKJV") && Solid("New King James Version")
  {
  }

  lemma VersionTexts4()
    ensures SolidTexts(Version(4))
  {
    TextsSolid4();
  }

  lemma TextsSolid4()
    ensures Solid("en") && Solid("Tyndale House Publisher") && Solid("NLT") && Solid("New Living Translation")
  {
  }

  lemma VersionTexts5()
    ensures SolidTexts(Version(5))
  {
    TextsSolid5();
  }

  lemma TextsSolid5()
    ensures Solid("en") && Solid("National Council of Churches of Christ") && Solid("NRSV") && Solid("New Revised Version")
  {
  }

  lemma VersionTexts6()
    ensures SolidTexts(Version(6))
  {
    TextsSolid6();
  }

  lemma TextsSolid6()
    ensures Solid("en") && Solid("Watchtower Society") && Solid("NWT") && Solid("New World Translation")
  {
  }

  lemma VersionTexts7()
    ensures SolidTexts(Version(7))
  {
    TextsSolid7();
  }

  lemma TextsSolid7()
    ensures Solid("ko") && Solid("대한성서공회") && Solid("개역") && Solid("개역성경") && Solid("Korean Revised Version")
  {
  }

  lemma VersionTexts8()
    ensures SolidTexts(Version(8))
  {
    TextsSolid8();
  }

  lemma TextsSolid8()
    ensures Solid("ko") && Solid("대한성서공회") && Solid("개정") && Solid("개역 개정판") && Solid("New Revised Korean Version")
  {
  }

  lemma VersionTexts9()
    ensures SolidTexts(Version(9))
  {
    TextsSolid9();
  }

  lemma TextsSolid9()
    ensures Solid("ko") && Solid("대한성서공회") && Solid("공동") && Solid("공동번역") && Solid("Common Translation Bible")
  {
  }

  lemma VersionTexts10()
    ensures SolidTexts(Version(10))
  {
    TextsSolid10();
  }

  lemma TextsSolid10()
    ensures Solid("ko") && Solid("퍼블릭 도메인 (안티오크 하우스)") && Solid("권위역") && Solid("권위역") && Solid("Korean Authorized Version")
  {
  }

  lemma VersionTexts11()
    ensures SolidTexts(Version(11))
  {
    TextsSolid11();
  }

  lemma TextsSolid11()
    ensures Solid("ko") && Solid("대한성서공회") && Solid("표준") && Solid("표준새번역") && Solid("New Korean Standard Bible")
  {
  }

  lemma VersionTexts12()
    ensures SolidTexts(Version(12))
  {
    TextsSolid12();
  }

  lemma TextsSolid12()
    ensures Solid("ko") && Solid("말씀보존학회") && Solid("한킹") && Solid("한글 킹제임스 성경") && Solid("Korean King James Version")
  {
  }

  lemma VersionTexts13()
    ensures SolidTexts(Version(13))
  {
    TextsSolid13();
  }

  lemma TextsSolid13()
    ensures Solid("ko") && Solid("성경원") && Solid("현대어") && Solid("현대어성경") && Solid("Today's Korean Version")
  {
  }

  lemma VersionTexts14()
    ensures SolidTexts(Version(14))
  {
    TextsSolid14();
  }

  lemma TextsSolid14()
    ensures Solid("ko") && Solid("생명의말씀사") && Solid("현대인") && Solid("현대인의성경") && Solid("Korean Living Bible")
  {
  }

  lemma VersionTexts15()
    ensures SolidTexts(Version(15))
  {
    TextsSolid15();
  }

  lemma TextsSolid15()
    ensures Solid("ko") && Solid("그리스도 예수안에") && Solid("흠정역") && Solid("킹제임스 흠정역 (5판)") && Solid("Korean Authorized King James Version") && Solid("흠정")
  {
  }

  /** Every alias of a version ends with a non-blank character. */
  lemma VersionAliasesSolid(i: nat)
    requires i < 16
    ensures forall v :: v in Version(i).AllValues() ==> Solid(v)
  {
    match i
    case 0 => VersionTexts0();
    case 1 => VersionTexts1();
    case 2 => VersionTexts2();
    case 3 => VersionTexts3();
    case 4 => VersionTexts4();
    case 5 => VersionTexts5();
    case 6 => VersionTexts6();
    case 7 => VersionTexts7();
    case 8 => VersionTexts8();
    case 9 => VersionTexts9();
    case 10 => VersionTexts10();
    case 11 => VersionTexts11();
    case 12 => VersionTexts12();
    case 13 => VersionTexts13();
    case 14 => VersionTexts14();
    case 15 => VersionTexts15();
    SolidAliases(Version(i));
  }

  /**
   * A string whose key cannot be 개역개정: it is too short, or its last
   * character is neither whitespace nor 정.
   */
  predicate Avoids(v: string) {
    |v| < 4 || (Solid(v) && v[|v| - 1] != '정')
  }

  /** The extra aliases and the text fields of e all avoid that key. */
  predicate AvoidingTexts(e: Entry) {
    (forall v :: v in e.others ==> Avoids(v))
    && forall name :: name in e.fields && e.fields[name].Text? ==> Avoids(e.fields[name].s)
  }

  lemma AvoidingAliases(e: Entry)
    requires AvoidingTexts(e)
    ensures forall v :: v in e.AllValues() ==> Avoids(v)
  {
  }

  /** Such a string indeed has another key: the key is never longer, and ends with the lower-cased last character. */
  lemma AvoidedKey(v: string)
    requires Avoids(v)
    ensures ValueKey(v) != "개역개정"
  {
    if |v| >= 4 {
      SquashKeepsLastChar(v);
      var q := Squash(v);
      assert Lower(q)[|q| - 1] == LowerChar(v[|v| - 1]);
    }
  }

  lemma VersionAvoids0()
    ensures AvoidingTexts(Version(0))
  {
    TextsAvoid0();
  }

  lemma TextsAvoid0()
    ensures Avoids("en") && Avoids("퍼블릭 도메인; 영국 내에서는 출판 허가가 필요") && Avoids("KJV") && Avoids("King James Version")
  {
  }

  lemma VersionAvoids1()
    ensures AvoidingTexts(Version(1))
  {
    TextsAvoid1();
  }

  lemma TextsAvoid1()
    ensures Avoids("en") && Avoids("Lockman Foundation") && Avoids("NASV") && Avoids("New American Standard Version")
  {
  }

  lemma VersionAvoids2()
    ensures AvoidingTexts(Version(2))
  {
    TextsAvoid2();
  }

  lemma TextsAvoid2()
    ensures Avoids("en") && Avoids("International Bible Society") && Avoids("NIV") && Avoids("New International Version")
  {
  }

  lemma VersionAvoids3()
    ensures AvoidingTexts(Version(3))
  {
    TextsAvoid3();
  }

  lemma TextsAvoid3()
    ensures Avoids("en") && Avoids("Thomas Nelson, Inc.") && Avoids("NKJV") && Avoids("New King James Version")
  {
  }

  lemma VersionAvoids4()
    ensures AvoidingTexts(Version(4))
  {
    TextsAvoid4();
  }

  lemma TextsAvoid4()
    ensures Avoids("en") && Avoids("Tyndale House Publisher") && Avoids("NLT") && Avoids("New Living Translation")
  {
  }

  lemma VersionAvoids5()
    ensures AvoidingTexts(Version(5))
  {
    TextsAvoid5();
  }

  lemma TextsAvoid5()
    ensures Avoids("en") && Avoids("National Council of Churches of Christ") && Avoids("NRSV") && Avoids("New Revised Version")
  {
  }

  lemma VersionAvoids6()
    ensures AvoidingTexts(Version(6))
  {
    TextsAvoid6();
  }

  lemma TextsAvoid6()
    ensures Avoids("en") && Avoids("Watchtower Society") && Avoids("NWT") && Avoids("New World Translation")
  {
  }

  lemma VersionAvoids7()
    ensures AvoidingTexts(Version(7))
  {
    TextsAvoid7();
  }

  lemma TextsAvoid7()
    ensures Avoids("ko") && Avoids("대한성서공회") && Avoids("개역") && Avoids("개역성경") && Avoids("Korean Revised Version")
  {
  }

  lemma VersionAvoids8()
    ensures AvoidingTexts(Version(8))
  {
    TextsAvoid8();
  }

  lemma TextsAvoid8()
    ensures Avoids("ko") && Avoids("대한성서공회") && Avoids("개정") && Avoids("개역 개정판") && Avoids("New Revised Korean Version")
  {
  }

  lemma VersionAvoids9()
    ensures AvoidingTexts(Version(9))
  {
    TextsAvoid9();
  }

  lemma TextsAvoid9()
    ensures Avoids("ko") && Avoids("대한성서공회") && Avoids("공동") && Avoids("공동번역") && Avoids("Common Translation Bible")
  {
  }

  lemma VersionAvoids10()
    ensures AvoidingTexts(Version(10))
  {
    TextsAvoid10();
  }

  lemma TextsAvoid10()
    ensures Avoids("ko") && Avoids("퍼블릭 도메인 (안티오크 하우스)") && Avoids("권위역") && Avoids("권위역") && Avoids("Korean Authorized Version")
  {
  }

  lemma VersionAvoids11()
    ensures AvoidingTexts(Version(11))
  {
    TextsAvoid11();
  }

  lemma TextsAvoid11()
    ensures Avoids("ko") && Avoids("대한성서공회") && Avoids("표준") && Avoids("표준새번역") && Avoids("New Korean Standard Bible")
  {
  }

  lemma VersionAvoids12()
    ensures AvoidingTexts(Version(12))
  {
    TextsAvoid12();
  }

  lemma TextsAvoid12()
    ensures Avoids("ko") && Avoids("말씀보존학회") && Avoids("한킹") && Avoids("한글 킹제임스 성경") && Avoids("Korean King James Version")
  {
  }

  lemma VersionAvoids13()
    ensures AvoidingTexts(Version(13))
  {
    TextsAvoid13();
  }

  lemma TextsAvoid13()
    ensures Avoids("ko") && Avoids("성경원") && Avoids("현대어") && Avoids("현대어성경") && Avoids("Today's Korean Version")
  {
  }

  lemma VersionAvoids14()
    ensures AvoidingTexts(Version(14))
  {
    TextsAvoid14();
  }

  lemma TextsAvoid14()
    ensures Avoids("ko") && Avoids("생명의말씀사") && Avoids("현대인") && Avoids("현대인의성경") && Avoids("Korean Living Bible")
  {
  }

  lemma VersionAvoids15()
    ensures AvoidingTexts(Version(15))
  {
    TextsAvoid15();
  }

  lemma TextsAvoid15()
    ensures Avoids("ko") && Avoids("그리스도 예수안에") && Avoids("흠정역") && Avoids("킹제임스 흠정역 (5판)") && Avoids("Korean Authorized King James Version") && Avoids("흠정")
  {
  }

  /** No alias of a version has the key 개역개정. */
  lemma VersionAvoids(i: nat)
    requires i < 16
    ensures forall v :: v in Version(i).AllValues() ==> Avoids(v)
  {
    match i
    case 0 => VersionAvoids0();
    case 1 => VersionAvoids1();
    case 2 => VersionAvoids2();
    case 3 => VersionAvoids3();
    case 4 => VersionAvoids4();
    case 5 => VersionAvoids5();
    case 6 => VersionAvoids6();
    case 7 => VersionAvoids7();
    case 8 => VersionAvoids8();
    case 9 => VersionAvoids9();
    case 10 => VersionAvoids10();
    case 11 => VersionAvoids11();
    case 12 => VersionAvoids12();
    case 13 => VersionAvoids13();
    case 14 => VersionAvoids14();
    case 15 => VersionAvoids15();
    AvoidingAliases(Version(i));
  }

  /** No version has 개역개정 as its code key or as the key of an alias. */
  lemma VersionMissesKey(i: nat)
    requires i < 16
    ensures CodeKey(Version(i).code) != "개역개정" && "개역개정" !in ValueKeys(Version(i))
  {
    VersionCodeColumn(i);
    if i < 4 { VersionCodes0(i); } else if i < 8 { VersionCodes4(i); } else if i < 12 { VersionCodes8(i); } else { VersionCodes12(i); }
    LetterCodeMisses(VersionCode(i));
    VersionAvoids(i);
    AvoidingKeysMiss(Version(i));
  }

  /** A code of lower-case ASCII letters is its own key, which is not 개역개정. */
  lemma LetterCodeMisses(code: string)
    requires LowerLetters(code)
    ensures CodeKey(code) != "개역개정"
  {
    LowerLettersFixed(code);
    var k := "개역개정";
    assert !('a' <= k[0] <= 'z');
  }

  lemma AvoidingKeysMiss(e: Entry)
    requires forall v :: v in e.AllValues() ==> Avoids(v)
    ensures "개역개정" !in ValueKeys(e)
  {
    forall v | v in e.AllValues() ensures ValueKey(v) != "개역개정" {
      AvoidedKey(v);
    }
  }

  /**
   * nkrv's `_others` keyword is private (only `others` is popped into the
   * extra aliases), so its value 개역개정 is no alias: no version resolves
   * from it.
   */
  lemma PrivateOthersMiss()
    ensures Version(8).fields["_others"] == Texts(["개역개정"])
    ensures FromAnyIn(Versions(), "개역개정") == Failure(KeyError("개역개정"))
    ensures FromValueIn(Versions(), "개역개정") == Failure(KeyError("개역개정"))
  {
    var k := "개역개정";
    SquashNoSpace(k);
    LowerKeepsNonCapitals(k);
    assert ValueKey(k) == k;
    var vs := Versions();
    forall i | 0 <= i < |vs| ensures CodeKey(vs[i].code) != k && k !in ValueKeys(vs[i]) {
      VersionMissesKey(i);
    }
  }

  /**
   * Every public keyword field of e holds a string, so `_refresh` can
   * split every alias; only private fields hold years, flags or lists.
   */
  predicate PublicFieldsAreText(e: Entry) {
    forall name :: name in e.fields && !IsPrivate(name) ==> e.fields[name].Text?
  }

  /** In the versions table, years, flags and nkrv's list are all private fields. */
  lemma VersionPublicFields(i: nat)
    requires i < 16
    ensures PublicFieldsAreText(Version(i))
  {
    if i < 4 { VersionPublicFields0(i); }
    else if i < 8 { VersionPublicFields4(i); }
    else if i < 12 { VersionPublicFields8(i); }
    else { VersionPublicFields12(i); }
  }

  lemma VersionPublicFields0(i: nat)
    requires 0 <= i < 4
    ensures PublicFieldsAreText(Version(i))
  {
    assert i == 0 || i == 1 || i == 2 || i == 3;
  }

  lemma VersionPublicFields4(i: nat)
    requires 4 <= i < 8
    ensures PublicFieldsAreText(Version(i))
  {
    assert i == 4 || i == 5 || i == 6 || i == 7;
  }

  lemma VersionPublicFields8(i: nat)
    requires 8 <= i < 12
    ensures PublicFieldsAreText(Version(i))
  {
    assert i == 8 || i == 9 || i == 10 || i == 11;
  }

  lemma VersionPublicFields12(i: nat)
    requires 12 <= i < 16
    ensures PublicFieldsAreText(Version(i))
  {
    assert i == 12 || i == 13 || i == 14 || i == 15;
  }

  /** A blank version parameter (empty, or whitespace only) names no version: from_any raises KeyError. */
  lemma BlankVersionMisses(s: string)
    requires ValueKey(s) == ""
    ensures FromAnyIn(Versions(), s) == Failure(KeyError(""))
  {
    VersionKeysNonBlank();
    BlankMisses(Versions(), s);
  }

  /** A table where no code and no alias has the empty key: a blank query finds nothing. */
  lemma BlankMisses(es: seq<Entry>, s: string)
    requires ValueKey(s) == ""
    requires forall i :: 0 <= i < |es| ==> CodeKey(es[i].code) != "" && "" !in ValueKeys(es[i])
    ensures FromAnyIn(es, s) == Failure(KeyError(""))
  {
  }

  /** Every version's code and every alias of it has a non-empty key. */
  lemma VersionKeysNonBlank()
    ensures forall i :: 0 <= i < |Versions()| ==> CodeKey(Versions()[i].code) != "" && "" !in ValueKeys(Versions()[i])
  {
    VersionCodeKeys();
    forall i | 0 <= i < 16 ensures CodeKey(Version(i).code) != "" && "" !in ValueKeys(Version(i)) {
      assert VersionNumber(Versions()[i].code) == i;
      VersionKeysSolid(i);
    }
  }

  /** No alias of a version has the empty key. */
  lemma VersionKeysSolid(i: nat)
    requires i < 16
    ensures "" !in ValueKeys(Version(i))
  {
    VersionAliasesSolid(i);
    forall v | v in Version(i).AllValues() ensures ValueKey(v) != "" {
      SolidKey(v);
    }
  }

  /** from_any deletes whitespace and lower-cases first: " K J V " finds kjv. */
  lemma SpacedCodeResolves()
    ensures FromAnyIn(Versions(), " K J V ") == Success(Versions()[0])
  {
    VersionCodeKeys();
    assert ValueKey(" K J V ") == "kjv";
    CodeBeforeAlias(Versions(), " K J V ", 0);
  }

  /** from_code trims only the ends: "k jv" misses there. */
  lemma FromCodeKeepsInnerSpace()
    ensures FromCodeIn(Versions(), "k jv") == Failure(KeyError("k jv"))
  {
    var q := "k jv";
    StripUnpadded(q);
    LowerKeepsNonCapitals(q);
    assert CodeKey(q) == q;
    assert VersionNumber(q) == -1;
    VersionCodeKeys();
    var vs := Versions();
    forall i | 0 <= i < |vs|
      ensures CodeKey(vs[i].code) != CodeKey(q)
    {
      assert VersionNumber(vs[i].code) == i;
    }
  }

  /** from_any deletes inner whitespace too, so the same "k jv" finds kjv. */
  lemma FromAnyDropsInnerSpace()
    ensures FromAnyIn(Versions(), "k jv") == Success(Versions()[0])
  {
    VersionCodeKeys();
    assert ValueKey("k jv") == "kjv";
    CodeBeforeAlias(Versions(), "k jv", 0);
  }

  /**
   * What normalize_url relies on in a versions table: codes are free of
   * commas and each resolves by from_any to its own entry, no two entries
   * share a code, DEFAULT_VER resolves by from_code to an entry with that
   * very code, and the empty string names no version.
   */
  predicate VersionTable(vs: seq<Entry>) {
    (forall i :: 0 <= i < |vs| ==> ',' !in vs[i].code && FromAnyIn(vs, vs[i].code) == Success(vs[i]))
    && (forall i, j :: 0 <= i < j < |vs| ==> vs[i].code != vs[j].code)
    && FromCodeIn(vs, DefaultVer).Success? && FromCodeIn(vs, DefaultVer).value.code == DefaultVer
    && FromAnyIn(vs, "").Failure?
  }

  /** The shipped versions table is such a table. */
  lemma ShippedVersionTable()
    ensures VersionTable(Versions())
  {
    var vs := Versions();
    VersionCodeKeys();
    forall i | 0 <= i < |vs| ensures ',' !in vs[i].code && FromAnyIn(vs, vs[i].code) == Success(vs[i]) {
      VersionCodeColumn(i);
      if i < 4 { VersionCodes0(i); } else if i < 8 { VersionCodes4(i); } else if i < 12 { VersionCodes8(i); } else { VersionCodes12(i); }
      VersionResolvesByCode(i);
    }
    DefaultVerExists();
    OneBlessedPerLanguage();
    BlankVersionMisses("");
  }
}
