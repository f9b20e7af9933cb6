/** Language negotiation of libs/i18n/src/language-detector.service.ts. */
module AcceptLanguage {
  import opened Collections
  import opened Text
  import S = StableSort

  // ----- the detector -----

  /** `parseFloat` is None for NaN; infinities are any numbers outside 0..1. */
  datatype Config = Config(defaultLanguage: string, supported: seq<string>, parseFloat: string -> Option<real>)

  datatype Preference = Preference(language: string, quality: real)

  /**
   * Looking a code up in a literal object also finds two lower-case members that every object
   * inherits; they are not text, and the following `toLowerCase` throws.
   */
  predicate Inherited(code: string) {
    code == "constructor" || code == "__proto__"
  }

  function Internal(code: string): string {
    if code == "da" then "dk" else if code == "sv" then "se" else if code == "nb" then "no" else code
  }

  function BaseCode(langTag: string): string {
    var base := Lower(Split(langTag, '-')[0]);
    if base != "" then base else Lower(langTag)
  }

  function Clamp(q: real): real {
    if q < 0.0 then 0.0 else if q > 1.0 then 1.0 else q
  }

  /** The quality of an element: 1 when it names none or one that is not a number, else clamped to 0..1. */
  function Quality(cfg: Config, qValue: Option<string>): real {
    if qValue.None? || qValue.value == "" then 1.0
    else match cfg.parseFloat(WithoutFirst(qValue.value, "q="))
      case None => 1.0
      case Some(q) => Clamp(q)
  }

  /** One element of the header; None when reading it throws. */
  function Parse(cfg: Config, part: string): Option<Preference> {
    var pieces := TrimAll(Split(part, ';'));
    var code := BaseCode(pieces[0]);
    if Inherited(code) then None
    else Some(Preference(Lower(Internal(code)), Quality(cfg, if |pieces| > 1 then Some(pieces[1]) else None)))
  }

  function Elements(header: string): (r: seq<string>)
    ensures r != []
  {
    TrimAll(Split(header, ','))
  }

  type Parser = string -> Option<Preference>

  function ParserOf(cfg: Config): Parser { (e: string) => Parse(cfg, e) }

  predicate Readable(parse: Parser, elements: seq<string>) {
    forall e :: e in elements ==> parse(e).Some?
  }

  /** The preferences of the elements, in header order. */
  predicate ParsesTo(parse: Parser, elements: seq<string>, prefs: seq<Preference>) {
    |prefs| == |elements| && forall i :: 0 <= i < |prefs| ==> parse(elements[i]) == Some(prefs[i])
  }

  function ByQuality(): Preference -> real { (p: Preference) => -p.quality }

  /** The loop of parseAcceptLanguage over the trimmed elements. */
  method ParseElements(parse: Parser, parts: seq<string>) returns (preferences: Option<seq<Preference>>)
    ensures preferences.Some? <==> Readable(parse, parts)
    ensures preferences.Some? ==> ParsesTo(parse, parts, preferences.value)
  {
    var prefs: seq<Preference> := [];
    for i := 0 to |parts|
      invariant ParsesTo(parse, parts[..i], prefs)
    {
      var preference := parse(parts[i]);
      if preference.None? {
        assert parts[i] in parts;
        return None;
      }
      prefs := prefs + [preference.value];
    }
    assert parts[..|parts|] == parts;
    return Some(prefs);
  }

  method ParseAcceptLanguage(cfg: Config, header: string) returns (r: Option<seq<Preference>>,
      ghost inOrder: seq<Preference>)
    ensures r.Some? <==> Readable(ParserOf(cfg), Elements(header))
    ensures r.Some? ==> r.value == S.Sort(inOrder, ByQuality()) && ParsesTo(ParserOf(cfg), Elements(header), inOrder)
  {
    var preferences := ParseElements(ParserOf(cfg), Elements(header));
    inOrder := if preferences.Some? then preferences.value else [];
    r := if preferences.Some? then Some(S.Sort(preferences.value, ByQuality())) else None;
  }

  /** The first supported language of a list. */
  function FirstSupported(cfg: Config, s: seq<Preference>): Option<Preference> {
    if s == [] then None else if s[0].language in cfg.supported then Some(s[0]) else FirstSupported(cfg, s[1..])
  }

  method MatchLanguage(cfg: Config, preferences: seq<Preference>) returns (language: string)
    ensures language == match FirstSupported(cfg, preferences)
                        case Some(p) => p.language
                        case None => cfg.defaultLanguage
  {
    for i := 0 to |preferences|
      invariant FirstSupported(cfg, preferences) == FirstSupported(cfg, preferences[i..])
    {
      if preferences[i].language in cfg.supported {
        return preferences[i].language;
      }
      assert preferences[i..][1..] == preferences[i + 1..];
    }
    return cfg.defaultLanguage;
  }

  // ----- what is detected -----

  predicate SupportedElement(cfg: Config, e: string) {
    Parse(cfg, e).Some? && Parse(cfg, e).value.language in cfg.supported
  }

  /** Element `i` is supported, none has a higher quality, and none before it has the same. */
  predicate Best(cfg: Config, elements: seq<string>, i: nat) {
    && i < |elements| && SupportedElement(cfg, elements[i])
    && forall j :: 0 <= j < |elements| && SupportedElement(cfg, elements[j]) ==>
         var qi, qj := Parse(cfg, elements[i]).value.quality, Parse(cfg, elements[j]).value.quality;
         qj <= qi && (j < i ==> qj < qi)
  }

  /**
   * The detected language is that of the earliest element of highest quality among those whose
   * language is supported; it is the default when there is none, when the header is blank, and
   * when some element cannot be read.
   */
  method DetectLanguage(cfg: Config, header: Option<string>) returns (language: string)
    ensures header.None? || Trim(header.value) == "" || !Readable(ParserOf(cfg), Elements(header.value)) ==>
              language == cfg.defaultLanguage
    ensures header.Some? && Trim(header.value) != "" && Readable(ParserOf(cfg), Elements(header.value)) ==>
              var es := Elements(header.value);
              if exists e :: e in es && SupportedElement(cfg, e) then
                exists i: nat :: Best(cfg, es, i) && language == Parse(cfg, es[i]).value.language
              else language == cfg.defaultLanguage
  {
    if header.None? || Trim(header.value) == "" {
      return cfg.defaultLanguage;
    }
    var preferences, inOrder := ParseAcceptLanguage(cfg, header.value);
    if preferences.None? {
      return cfg.defaultLanguage;
    }
    var detected := MatchLanguage(cfg, preferences.value);
    FirstSupportedIsBest(cfg, inOrder, Elements(header.value));
    if detected in cfg.supported {
      return detected;
    }
    return cfg.defaultLanguage;
  }

  /** Sorting and taking the first supported entry is one scan for the best entry, ties going to the earlier one. */
  function BestSoFar(cfg: Config, s: seq<Preference>): Option<nat> {
    if s == [] then None
    else
      var n := |s| - 1;
      var before := BestSoFar(cfg, s[..n]);
      if s[n].language !in cfg.supported then before
      else if before.Some? && before.value < n && s[before.value].quality >= s[n].quality then before
      else Some(n)
  }

  lemma {:induction false} BestSoFarIsBest(cfg: Config, s: seq<Preference>)
    ensures BestSoFar(cfg, s).None? <==> forall p :: p in s ==> p.language !in cfg.supported
    ensures match BestSoFar(cfg, s)
            case None => true
            case Some(i) =>
              && i < |s| && s[i].language in cfg.supported
              && forall j :: 0 <= j < |s| && s[j].language in cfg.supported ==>
                   s[j].quality <= s[i].quality && (j < i ==> s[j].quality < s[i].quality)
  {
    if s != [] {
      var n := |s| - 1;
      assert s == s[..n] + [s[n]];
      BestSoFarIsBest(cfg, s[..n]);
    }
  }

  lemma {:induction false} FirstSupportedOfSort(cfg: Config, s: seq<Preference>)
    ensures FirstSupported(cfg, S.Sort(s, ByQuality())) ==
            match BestSoFar(cfg, s) { case Some(i) => if i < |s| then Some(s[i]) else None case None => None }
  {
    if s != [] {
      var n := |s| - 1;
      var init := s[..n];
      FirstSupportedOfSort(cfg, init);
      BestSoFarIsBest(cfg, init);
      S.SortSorts(init, ByQuality());
      FirstSupportedOfInsert(cfg, S.Sort(init, ByQuality()), s[n]);
    }
  }

  /** Inserting a supported entry changes the first supported one only if its quality is strictly higher. */
  lemma FirstSupportedOfInsert(cfg: Config, s: seq<Preference>, x: Preference)
    requires S.Ascending(s, ByQuality())
    ensures FirstSupported(cfg, S.Insert(s, x, ByQuality())) ==
            var before := FirstSupported(cfg, s);
            if x.language in cfg.supported && (before.None? || before.value.quality < x.quality) then Some(x)
                else before
  {
    var p := S.Place(s, ByQuality()(x), ByQuality());
    S.PlaceSplits(s, ByQuality()(x), ByQuality());
    var front, back := s[..p], s[p..];
    assert s == front + back;
    assert forall y :: y in front ==> y.quality >= x.quality;
    assert forall y :: y in back ==> y.quality < x.quality;
    InsertBetween(cfg, front, back, x);
    assert front + [x] + back == front + ([x] + back);
  }

  lemma InsertBetween(cfg: Config, front: seq<Preference>, back: seq<Preference>, x: Preference)
    requires forall y :: y in front ==> y.quality >= x.quality
    requires forall y :: y in back ==> y.quality < x.quality
    ensures FirstSupported(cfg, front + ([x] + back)) ==
            var before := FirstSupported(cfg, front + back);
            if x.language in cfg.supported && (before.None? || before.value.quality < x.quality) then Some(x)
                else before
  {
    FirstSupportedConcat(cfg, front, back);
    FirstSupportedConcat(cfg, front, [x] + back);
    assert ([x] + back)[1..] == back;
    FirstSupportedMember(cfg, front);
    FirstSupportedMember(cfg, back);
  }

  lemma {:induction false} FirstSupportedMember(cfg: Config, s: seq<Preference>)
    ensures var f := FirstSupported(cfg, s); f.Some? ==> f.value in s && f.value.language in cfg.supported
  {
    if s != [] {
      FirstSupportedMember(cfg, s[1..]);
    }
  }

  lemma {:induction false} FirstSupportedConcat(cfg: Config, s: seq<Preference>, t: seq<Preference>)
    ensures FirstSupported(cfg, s + t) == if FirstSupported(cfg, s).Some? then FirstSupported(cfg, s)
      else FirstSupported(cfg, t)
  {
    if s == [] {
      assert s + t == t;
    } else {
      assert (s + t)[1..] == s[1..] + t;
      FirstSupportedConcat(cfg, s[1..], t);
    }
  }

  lemma FirstSupportedIsBest(cfg: Config, inOrder: seq<Preference>, elements: seq<string>)
    requires ParsesTo(ParserOf(cfg), elements, inOrder)
    ensures var f := FirstSupported(cfg, S.Sort(inOrder, ByQuality()));
            if exists e :: e in elements && SupportedElement(cfg, e) then
              f.Some? && exists i: nat :: Best(cfg, elements, i) && f.value == Parse(cfg, elements[i]).value
            else f.None?
  {
    FirstSupportedOfSort(cfg, inOrder);
    BestSoFarIsBest(cfg, inOrder);
    match BestSoFar(cfg, inOrder) {
      case Some(i) =>
        assert Best(cfg, elements, i);
        assert elements[i] in elements;
      case None =>
        forall e | e in elements ensures !SupportedElement(cfg, e) {
          var k :| 0 <= k < |elements| && elements[k] == e;
          assert inOrder[k] in inOrder;
        }
    }
  }

  // ----- what an element means -----

  /** Nothing to trim or to split at. */
  predicate Plain(s: string) {
    s != "" && forall i :: 0 <= i < |s| ==> !IsSpace(s[i]) && s[i] != ',' && s[i] != ';'
  }

  /** The codes that are kept under another name. */
  const CODES: map<string, string> := map["da" := "dk", "sv" := "se", "nb" := "no"]

  /** The inherited members whose names are in lower case. */
  const INHERITED := {"constructor", "__proto__"}

  /**
   * The element is read as this language, in the internal code, with this quality; a name of an
   * inherited member is not read.
   */
  predicate ReadAs(p: Option<Preference>, code: string, quality: real) {
    if code in INHERITED then p.None?
    else p == Some(Preference(if code in CODES then CODES[code] else code, quality))
  }

  /** A number is cut to 0..1, and anything else counts as 1. */
  function Weight(x: Option<real>): real {
    match x
    case None => 1.0
    case Some(v) => if 0.0 <= v <= 1.0 then v else if v > 1.0 then 1.0 else 0.0
  }

  lemma LowerTwice(s: string)
    ensures Lower(Lower(s)) == Lower(s)
  {
  }

  /** The code is the part before the first hyphen, or the whole tag when that is empty. */
  lemma CodeOfTag(base: string, subtags: string)
    requires '-' !in base
    ensures base != "" ==> BaseCode(base) == Lower(base) && BaseCode(base + "-" + subtags) == Lower(base)
    ensures BaseCode("-" + subtags) == Lower("-" + subtags)
  {
    SplitAtFirst(base, '-', subtags);
    SplitAtFirst("", '-', subtags);
    assert base + ['-'] + subtags == base + "-" + subtags && "" + ['-'] + subtags == "-" + subtags;
    assert Lower("") == "";
  }

  lemma CodeIsRead(code: string)
    requires Lower(code) == code && code !in INHERITED
    ensures Lower(Internal(code)) == if code in CODES then CODES[code] else code
  {
    assert Lower("dk") == "dk" && Lower("se") == "se" && Lower("no") == "no";
  }

  lemma PlainSplits(s: string, sep: char)
    requires Plain(s) && (sep == ',' || sep == ';')
    ensures sep !in s && Tight(s) && Trim(s) == s
  {
    TrimsTo("", s, "");
    assert "" + s + "" == s;
  }

  /** A tag alone has quality 1. */
  lemma TagAlone(cfg: Config, tag: string)
    requires Plain(tag)
    ensures ReadAs(Parse(cfg, tag), BaseCode(tag), 1.0)
  {
    PlainSplits(tag, ';');
    SplitAtFirst(tag, ';', "");
    assert TrimAll([tag]) == [tag];
    CodeIsReadOf(tag);
  }

  lemma CodeIsReadOf(tag: string)
    ensures Lower(BaseCode(tag)) == BaseCode(tag)
    ensures BaseCode(tag) !in INHERITED ==>
              Lower(Internal(BaseCode(tag))) == if BaseCode(tag) in CODES then CODES[BaseCode(tag)] else BaseCode(tag)
  {
    LowerTwice(Split(tag, '-')[0]);
    LowerTwice(tag);
    if BaseCode(tag) !in INHERITED {
      CodeIsRead(BaseCode(tag));
    }
  }

  /** The first two pieces; whatever follows a second semicolon makes others. */
  lemma TwoPieces(first: string, second: string, tail: string)
    requires ';' !in first && ';' !in second && (tail == "" || tail[0] == ';')
    ensures var pieces := Split(first + [';'] + (second + tail), ';');
            |pieces| > 1 && pieces[0] == first && pieces[1] == second
  {
    SplitAtFirst(first, ';', second + tail);
    if tail == "" {
      assert second + tail == second;
      SplitAtFirst(second, ';', "");
    } else {
      assert second + tail == second + [';'] + tail[1..];
      SplitAtFirst(second, ';', tail[1..]);
    }
  }

  lemma PiecesParse(cfg: Config, e: string, tag: string, part: string)
    requires |Split(e, ';')| > 1 && Trim(Split(e, ';')[0]) == tag && Trim(Split(e, ';')[1]) == part
    ensures ReadAs(Parse(cfg, e), BaseCode(tag), Quality(cfg, Some(part)))
  {
    CodeIsReadOf(tag);
  }

  lemma QualityOf(cfg: Config, v: string)
    ensures Quality(cfg, Some("q=" + v)) == Weight(cfg.parseFloat(v))
  {
    assert OccursAt("q=" + v, "q=", 0);
    WithoutFirstOccurrence("q=" + v, "q=", 0);
    assert WithoutFirst("q=" + v, "q=") == v;
  }

  /** `tag;q=v`, with spaces after the tag and before the quality. */
  function Weighted(tag: string, spaces: string, more: string, v: string, tail: string): string {
    (tag + spaces) + [';'] + ((more + ("q=" + v)) + tail)
  }

  /**
   * Its quality is the number that v is read as, cut to 0..1, and 1 when it is no number; anything
   * after a second semicolon is ignored.
   */
  lemma WeightedElement(cfg: Config, tag: string, spaces: string, more: string, v: string, tail: string)
    requires Plain(tag) && Plain(v) && AllSpace(spaces) && AllSpace(more) && (tail == "" || tail[0] == ';')
    ensures ReadAs(Parse(cfg, Weighted(tag, spaces, more, v, tail)), BaseCode(tag), Weight(cfg.parseFloat(v)))
  {
    var first, second := tag + spaces, more + ("q=" + v);
    PlainSplits(tag, ';');
    PlainSplits(v, ';');
    TwoPieces(first, second, tail);
    TrimsTo("", tag, spaces);
    assert "" + tag + spaces == first;
    TrimsTo(more, "q=" + v, "");
    assert more + ("q=" + v) + "" == second;
    QualityOf(cfg, v);
    PiecesParse(cfg, Weighted(tag, spaces, more, v, tail), tag, "q=" + v);
  }

  /** Without a value after the semicolon the quality is 1. */
  lemma EmptyWeight(cfg: Config, tag: string, tail: string)
    requires Plain(tag) && (tail == "" || tail[0] == ';')
    ensures ReadAs(Parse(cfg, tag + [';'] + ("" + tail)), BaseCode(tag), 1.0)
  {
    PlainSplits(tag, ';');
    TwoPieces(tag, "", tail);
    PiecesParse(cfg, tag + [';'] + ("" + tail), tag, "");
  }

  /** A header of two weighted languages. */
  function TwoWeighted(a: string, v: string, b: string, w: string): string {
    Weighted(a, "", "", v, "") + [','] + Weighted(b, "", "", w, "")
  }

  lemma WeightedSplits(tag: string, v: string)
    requires Plain(tag) && Plain(v)
    ensures ',' !in Weighted(tag, "", "", v, "") && Trim(Weighted(tag, "", "", v, "")) == Weighted(tag, "", "", v, "")
  {
    var e := Weighted(tag, "", "", v, "");
    PlainSplits(tag, ',');
    PlainSplits(v, ',');
    assert e == tag + ";q=" + v;
    assert e[0] == tag[0] && e[|e| - 1] == v[|v| - 1];
    TrimsTo("", e, "");
    assert "" + e + "" == e;
  }

  /**
   * Of two supported languages with different weights the one with the higher is detected, whichever
   * comes first; with equal weights the first is.
   */
  lemma HigherWeightWins(cfg: Config, a: string, b: string, v: string, w: string)
    requires Plain(a) && Plain(b) && Plain(v) && Plain(w)
    requires BaseCode(a) !in INHERITED + CODES.Keys && BaseCode(b) !in INHERITED + CODES.Keys
    requires BaseCode(a) in cfg.supported && BaseCode(b) in cfg.supported
    ensures var es := Elements(TwoWeighted(a, v, b, w));
            && |es| == 2 && Readable(ParserOf(cfg), es)
            && ReadAs(Parse(cfg, es[0]), BaseCode(a), Weight(cfg.parseFloat(v)))
            && ReadAs(Parse(cfg, es[1]), BaseCode(b), Weight(cfg.parseFloat(w)))
            && forall i: nat :: Best(cfg, es, i) <==>
                 i == if Weight(cfg.parseFloat(v)) < Weight(cfg.parseFloat(w)) then 1 else 0
  {
    var first, second := Weighted(a, "", "", v, ""), Weighted(b, "", "", w, "");
    WeightedElement(cfg, a, "", "", v, "");
    WeightedElement(cfg, b, "", "", w, "");
    TwoElements(a, v, b, w);
    BestOfTwo(cfg, first, second);
  }

  lemma TwoElements(a: string, v: string, b: string, w: string)
    requires Plain(a) && Plain(b) && Plain(v) && Plain(w)
    ensures Elements(TwoWeighted(a, v, b, w)) == [Weighted(a, "", "", v, ""), Weighted(b, "", "", w, "")]
  {
    var first, second := Weighted(a, "", "", v, ""), Weighted(b, "", "", w, "");
    WeightedSplits(a, v);
    WeightedSplits(b, w);
    SplitAtFirst(first, ',', second);
    SplitAtFirst(second, ',', "");
  }

  lemma BestOfTwo(cfg: Config, first: string, second: string)
    requires SupportedElement(cfg, first) && SupportedElement(cfg, second)
    ensures forall i: nat :: Best(cfg, [first, second], i) <==>
              i == if Parse(cfg, first).value.quality < Parse(cfg, second).value.quality then 1 else 0
  {
    var es := [first, second];
    assert es[0] == first && es[1] == second;
  }

  // ----- an element that cannot be read -----

  /** A lower-case word. */
  predicate Word(s: string) {
    s != "" && forall c :: c in s ==> 'a' <= c <= 'z'
  }

  lemma WordElement(s: string)
    requires Word(s)
    ensures Plain(s) && BaseCode(s) == s
  {
    forall i | 0 <= i < |s| ensures 'a' <= s[i] <= 'z' {
      assert s[i] in s;
    }
    assert Lower(s) == s;
    CodeOfTag(s, "");
  }

  lemma TwoWords(a: string, b: string)
    requires Word(a) && Word(b)
    ensures Elements(a + [','] + b) == [a, b]
  {
    WordElement(a);
    WordElement(b);
    PlainSplits(a, ',');
    PlainSplits(b, ',');
    SplitAtFirst(a, ',', b);
    SplitAtFirst(b, ',', "");
  }

  /**
   * In a header of a supported language and "constructor", the first element is supported, but the
   * second cannot be read.
   */
  lemma UnreadableElement(cfg: Config, supported: string)
    requires Word(supported) && supported !in INHERITED
    requires (if supported in CODES then CODES[supported] else supported) in cfg.supported
    ensures var elements := Elements(supported + [','] + "constructor");
            elements == [supported, "constructor"] && SupportedElement(cfg, elements[0])
                && !Readable(ParserOf(cfg), elements)
  {
    var inherited := "constructor";
    WordElement(supported);
    WordElement(inherited);
    TwoWords(supported, inherited);
    TagAlone(cfg, supported);
    TagAlone(cfg, inherited);
    assert inherited in [supported, inherited];
  }
}
