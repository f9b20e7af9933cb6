/** slugify and ensureUniqueSlug of scripts/seed-kodier-verwaltung-listings.ts. */
module Slugs {
  import opened Collections
  import opened Text

  predicate SlugChar(c: char) {
    'a' <= c <= 'z' || '0' <= c <= '9'
  }

  /** Only letters a-z, digits and hyphens; no hyphen first, last or after another. */
  predicate IsSlug(s: string) {
    && (forall i :: 0 <= i < |s| ==> SlugChar(s[i]) || s[i] == '-')
    && (s != "" ==> s[0] != '-' && s[|s| - 1] != '-')
    && (forall i :: 0 < i < |s| ==> s[i - 1] != '-' || s[i] != '-')
  }

  function Transliterated(c: char): string {
    match c
    case '\U{00E4}' => "ae"
    case '\U{00C4}' => "ae"
    case '\U{00F6}' => "oe"
    case '\U{00D6}' => "oe"
    case '\U{00FC}' => "ue"
    case '\U{00DC}' => "ue"
    case '\U{00DF}' => "ss"
    case _ => [c]
  }

  function Transliterate(s: string): string {
    if s == "" then "" else Transliterated(s[0]) + Transliterate(s[1..])
  }

  /** Every maximal run of other characters becomes one hyphen; `inRun` tells that one is being skipped. */
  function Hyphenate(s: string, inRun: bool): string {
    if s == "" then ""
    else if SlugChar(s[0]) then [s[0]] + Hyphenate(s[1..], false)
    else if inRun then Hyphenate(s[1..], true)
    else "-" + Hyphenate(s[1..], true)
  }

  function DropLeading(s: string): string {
    if s != "" && s[0] == '-' then DropLeading(s[1..]) else s
  }

  function DropTrailing(s: string): string {
    if s != "" && s[|s| - 1] == '-' then DropTrailing(s[..|s| - 1]) else s
  }

  /** `lower` stands for toLowerCase. */
  function Slugify(value: string, lower: string -> string): string {
    DropTrailing(DropLeading(Hyphenate(Transliterate(Trim(lower(value))), false)))
  }

  /** Hyphens stand alone. */
  predicate Single(s: string) {
    && (forall i :: 0 <= i < |s| ==> SlugChar(s[i]) || s[i] == '-')
    && (forall i :: 0 < i < |s| ==> s[i - 1] != '-' || s[i] != '-')
  }

  lemma {:induction false} HyphenateIsSingle(s: string, inRun: bool)
    ensures Single(Hyphenate(s, inRun))
    ensures inRun && Hyphenate(s, inRun) != "" ==> Hyphenate(s, inRun)[0] != '-'
  {
    if s != "" {
      HyphenateIsSingle(s[1..], if SlugChar(s[0]) then false else true);
    }
  }

  lemma {:induction false} DropLeadingKeeps(s: string)
    requires Single(s)
    ensures Single(DropLeading(s))
    ensures DropLeading(s) != "" ==> DropLeading(s)[0] != '-'
  {
    if s != "" && s[0] == '-' {
      assert forall i :: 0 < i < |s[1..]| ==> s[1..][i - 1] == s[i] && s[1..][i] == s[i + 1];
      DropLeadingKeeps(s[1..]);
    }
  }

  lemma {:induction false} DropTrailingKeeps(s: string)
    requires Single(s)
    ensures Single(DropTrailing(s)) && DropTrailing(s) <= s
    ensures DropTrailing(s) != "" ==> DropTrailing(s)[|DropTrailing(s)| - 1] != '-'
  {
    if s != "" && s[|s| - 1] == '-' {
      DropTrailingKeeps(s[..|s| - 1]);
    }
  }

  /** Whatever the input, the result is a slug. */
  lemma SlugifyIsSlug(value: string, lower: string -> string)
    ensures IsSlug(Slugify(value, lower))
  {
    var h := Hyphenate(Transliterate(Trim(lower(value))), false);
    HyphenateIsSingle(Transliterate(Trim(lower(value))), false);
    DropLeadingKeeps(h);
    DropTrailingKeeps(DropLeading(h));
  }

  lemma {:induction false} TransliterateKeepsSlug(s: string)
    requires forall i :: 0 <= i < |s| ==> SlugChar(s[i]) || s[i] == '-'
    ensures Transliterate(s) == s
  {
    if s != "" {
      TransliterateKeepsSlug(s[1..]);
      assert s == [s[0]] + s[1..];
    }
  }

  lemma {:induction false} HyphenateKeepsSingle(s: string, inRun: bool)
    requires Single(s) && (inRun && s != "" ==> s[0] != '-')
    ensures Hyphenate(s, inRun) == s
  {
    if s != "" {
      assert forall i :: 0 < i < |s[1..]| ==> s[1..][i - 1] == s[i] && s[1..][i] == s[i + 1];
      HyphenateKeepsSingle(s[1..], s[0] == '-');
      assert s == [s[0]] + s[1..];
    }
  }

  /** The slugs are exactly the texts that slugify leaves as they are; so slugify is idempotent. */
  lemma SlugifyFixesExactlySlugs(s: string, lower: string -> string)
    requires IsSlug(s) ==> lower(s) == s
    ensures Slugify(s, lower) == s <==> IsSlug(s)
  {
    if IsSlug(s) {
      TransliterateKeepsSlug(s);
      HyphenateKeepsSingle(s, false);
      assert Trim(s) == s by {
        assert s != "" ==> !IsSpace(s[0]) && !IsSpace(s[|s| - 1]);
      }
    }
    SlugifyIsSlug(s, lower);
  }

  lemma SlugifyIdempotent(value: string, lower: string -> string)
    requires forall s :: IsSlug(s) ==> lower(s) == s
    ensures Slugify(Slugify(value, lower), lower) == Slugify(value, lower)
  {
    SlugifyIsSlug(value, lower);
    SlugifyFixesExactlySlugs(Slugify(value, lower), lower);
  }

  // ----- what a slug is made of -----

  /** The characters of slugs, one by one. */
  lemma SlugChars(c: char)
    ensures SlugChar(c) <==> c in SMALLS || c in DIGITS
  {
    SmallLetter(c);
    DecimalDigit(c);
  }

  const DIGITS := "0123456789"

  lemma SmallLetter(c: char)
    ensures c in SMALLS <==> 'a' <= c <= 'z'
  {
    assert forall k :: 0 <= k < 26 ==> SMALLS[k] as int == 'a' as int + k;
    if 'a' <= c <= 'z' {
      assert SMALLS[c as int - 'a' as int] == c;
    }
  }

  lemma DecimalDigit(c: char)
    ensures c in DIGITS <==> '0' <= c <= '9'
  {
    assert forall k :: 0 <= k < 10 ==> DIGITS[k] as int == '0' as int + k;
    if '0' <= c <= '9' {
      assert DIGITS[c as int - '0' as int] == c;
    }
  }

  /** The German letters that become two. */
  const UMLAUTS: map<char, string> :=
    map['\U{00E4}' := "ae", '\U{00C4}' := "ae", '\U{00F6}' := "oe", '\U{00D6}' := "oe",
        '\U{00FC}' := "ue", '\U{00DC}' := "ue", '\U{00DF}' := "ss"]

  /** German letters become two others wherever they stand; every other character stays. */
  lemma {:induction false} TransliterateEach(s: string, c: char, t: string)
    ensures Transliterate(s + [c] + t) == Transliterate(s) + (if c in UMLAUTS then UMLAUTS[c]
      else [c]) + Transliterate(t)
  {
    if s == "" {
      assert (s + [c] + t)[1..] == t;
    } else {
      assert (s + [c] + t)[1..] == s[1..] + [c] + t;
      TransliterateEach(s[1..], c, t);
    }
  }

  /** The length of the run of slug characters that a text begins with. */
  function Run(s: string): nat {
    if s != "" && SlugChar(s[0]) then 1 + Run(s[1..]) else 0
  }

  lemma {:induction false} RunFits(s: string)
    ensures Run(s) <= |s|
  {
    if s != "" && SlugChar(s[0]) {
      RunFits(s[1..]);
    }
  }

  /** The maximal runs of slug characters of a text. */
  function Words(s: string): seq<string>
    decreases |s|
  {
    if s == "" then []
    else if !SlugChar(s[0]) then Words(s[1..])
    else
      RunFits(s);
      [s[..Run(s)]] + Words(s[Run(s)..])
  }

  function Dashed(words: seq<string>): string {
    if words == [] then "" else if |words| == 1 then words[0] else words[0] + "-" + Dashed(words[1..])
  }

  lemma {:induction false} RunIsMaximal(s: string)
    ensures Run(s) <= |s| && forall i :: 0 <= i < Run(s) ==> SlugChar(s[i])
    ensures Run(s) < |s| ==> !SlugChar(s[Run(s)])
  {
    if s != "" && SlugChar(s[0]) {
      RunIsMaximal(s[1..]);
    }
  }

  /** A run of slug characters is kept as it is. */
  lemma {:induction false} HyphenateRun(w: string, rest: string, inRun: bool)
    requires w != "" && forall i :: 0 <= i < |w| ==> SlugChar(w[i])
    ensures Hyphenate(w + rest, inRun) == w + Hyphenate(rest, false)
  {
    assert (w + rest)[1..] == w[1..] + rest;
    if |w| == 1 {
      assert w[1..] + rest == rest;
    } else {
      HyphenateRun(w[1..], rest, false);
      assert [w[0]] + (w[1..] + Hyphenate(rest, false)) == w + Hyphenate(rest, false);
    }
  }

  lemma {:induction false} DropTrailingConcat(a: string, x: string)
    ensures DropTrailing(a + x) == if DropTrailing(x) != "" then a + DropTrailing(x) else DropTrailing(a)
    decreases |x|
  {
    if x == "" {
      assert a + x == a;
    } else if x[|x| - 1] == '-' {
      assert (a + x)[..|a + x| - 1] == a + x[..|x| - 1];
      DropTrailingConcat(a, x[..|x| - 1]);
    }
  }

  /** After the leading hyphens, what is left are the words with hyphens between them. */
  lemma {:induction false} HyphenateIsWords(s: string)
    ensures DropTrailing(Hyphenate(s, true)) == Dashed(Words(s))
    ensures Words(s) == [] <==> Dashed(Words(s)) == ""
    decreases |s|
  {
    if s != "" {
      if !SlugChar(s[0]) {
        HyphenateIsWords(s[1..]);
      } else {
        RunIsMaximal(s);
        var w, rest := s[..Run(s)], s[Run(s)..];
        assert s == w + rest;
        HyphenateRun(w, rest, true);
        HyphenateIsWords(rest);
        WordBeforeRest(w, rest);
        assert Words(s) == [w] + Words(rest) && ([w] + Words(rest))[1..] == Words(rest);
      }
    }
  }

  lemma WordBeforeRest(w: string, rest: string)
    requires w != "" && SlugChar(w[|w| - 1]) && (rest != "" ==> !SlugChar(rest[0]))
    ensures var after := DropTrailing(Hyphenate(rest, true));
            DropTrailing(w + Hyphenate(rest, false)) == if after == "" then w else w + "-" + after
  {
    if rest == "" {
      assert w + "" == w;
    } else {
      var x := Hyphenate(rest, true);
      assert Hyphenate(rest, false) == "-" + x && w + ("-" + x) == (w + "-") + x;
      DropTrailingConcat(w + "-", x);
      assert (w + "-")[..|w|] == w;
    }
  }

  lemma LeadingHyphen(s: string)
    ensures DropLeading(Hyphenate(s, false)) == Hyphenate(s, true)
  {
    HyphenateIsSingle(s, true);
    var x := Hyphenate(s, true);
    assert DropLeading(x) == x;
    if s != "" && !SlugChar(s[0]) {
      assert Hyphenate(s, false) == "-" + x && ("-" + x)[1..] == x;
    }
  }

  lemma {:induction false} TransliterateConcat(s: string, t: string)
    ensures Transliterate(s + t) == Transliterate(s) + Transliterate(t)
  {
    if s == "" {
      assert s + t == t;
    } else {
      assert (s + t)[1..] == s[1..] + t;
      TransliterateConcat(s[1..], t);
    }
  }

  lemma {:induction false} TransliterateSpaces(s: string)
    requires AllSpace(s)
    ensures Transliterate(s) == s
  {
    if s != "" {
      TransliterateSpaces(s[1..]);
      assert s == [s[0]] + s[1..];
    }
  }

  lemma {:induction false} WordsAfterSpaces(spaces: string, s: string)
    requires AllSpace(spaces)
    ensures Words(spaces + s) == Words(s)
  {
    if spaces == "" {
      assert spaces + s == s;
    } else {
      assert (spaces + s)[1..] == spaces[1..] + s;
      WordsAfterSpaces(spaces[1..], s);
    }
  }

  lemma {:induction false} RunBeforeSpaces(s: string, spaces: string)
    requires AllSpace(spaces)
    ensures Run(s + spaces) == Run(s)
  {
    if s == "" {
      assert s + spaces == spaces;
    } else {
      assert (s + spaces)[1..] == s[1..] + spaces;
      RunBeforeSpaces(s[1..], spaces);
    }
  }

  lemma {:induction false} WordsBeforeSpaces(s: string, spaces: string)
    requires AllSpace(spaces)
    ensures Words(s + spaces) == Words(s)
    decreases |s|
  {
    if s == "" {
      WordsAfterSpaces(spaces, "");
      assert spaces + "" == spaces && s + spaces == spaces;
    } else if !SlugChar(s[0]) {
      assert (s + spaces)[1..] == s[1..] + spaces;
      WordsBeforeSpaces(s[1..], spaces);
    } else {
      RunFits(s);
      RunBeforeSpaces(s, spaces);
      var k := Run(s);
      assert (s + spaces)[..k] == s[..k] && (s + spaces)[k..] == s[k..] + spaces;
      WordsBeforeSpaces(s[k..], spaces);
    }
  }

  /**
   * The slug of a text are its maximal runs of letters a-z and digits, after lower-casing and
   * transliteration, in order and with one hyphen between them.
   */
  lemma SlugifyIsWords(value: string, lower: string -> string)
    ensures Slugify(value, lower) == Dashed(Words(Transliterate(lower(value))))
  {
    var text := lower(value);
    var i, j := TrimCuts(text);
    var left, right := text[..i], text[j..];
    assert text == left + Trim(text) + right;
    var inner := Transliterate(Trim(text));
    TransliterateConcat(left + Trim(text), right);
    TransliterateConcat(left, Trim(text));
    TransliterateSpaces(left);
    TransliterateSpaces(right);
    WordsBeforeSpaces(left + inner, right);
    WordsAfterSpaces(left, inner);
    LeadingHyphen(inner);
    HyphenateIsWords(inner);
  }

  // ----- unique slugs -----

  /** The listings table: the listing that holds a slug. */
  type Listings = map<string, string>

  /** The k-th name tried: the base itself, then base-1, base-2, ... */
  function Candidate(base: string, k: nat): string {
    if k == 0 then base else base + "-" + Decimal(k)
  }

  lemma CandidateInjective(base: string, i: nat, j: nat)
    requires Candidate(base, i) == Candidate(base, j)
    ensures i == j
  {
    DecimalReadsBack(i);
    DecimalReadsBack(j);
    if i > 0 {
      assert Candidate(base, i)[|base| + 1..] == Decimal(i);
    }
    if j > 0 {
      assert Candidate(base, j)[|base| + 1..] == Decimal(j);
    }
  }

  /** The name is free, or held by the listing being saved. */
  predicate Available(db: Listings, currentId: Option<string>, name: string) {
    name !in db || Some(db[name]) == currentId
  }

  /** Returns the first available candidate, after at most one lookup more than there are listings. */
  method EnsureUniqueSlug(db: Listings, base: string, currentId: Option<string>)
      returns (candidate: string, ghost k: nat)
    ensures candidate == Candidate(base, k) && k <= |db|
    ensures Available(db, currentId, candidate)
    ensures forall j :: 0 <= j < k ==> !Available(db, currentId, Candidate(base, j))
    ensures candidate in db ==> currentId == Some(db[candidate])
    ensures candidate == if k == 0 then base else base + "-" + Decimal(k)
    ensures k > 0 ==> base in db && currentId != Some(db[base])
    ensures forall j :: 0 < j < k ==>
              base + "-" + Decimal(j) in db && currentId != Some(db[base + "-" + Decimal(j)])
  {
    candidate := base;
    var counter := 1;
    k := 0;
    ghost var tried: seq<string> := [];
    while true
      invariant counter == k + 1 && candidate == Candidate(base, k) && |tried| == k
      invariant forall j :: 0 <= j < k ==>
                  tried[j] == Candidate(base, j) && tried[j] in db && !Available(db, currentId, tried[j])
      invariant k <= |db|
      decreases |db| - k
    {
      if candidate !in db || Some(db[candidate]) == currentId {
        forall j | 0 < j < k
          ensures base + "-" + Decimal(j) in db && currentId != Some(db[base + "-" + Decimal(j)])
        {
          assert tried[j] == Candidate(base, j) == base + "-" + Decimal(j);
        }
        return;
      }
      tried := tried + [candidate];
      TriedFit(db, base, tried);
      candidate := base + "-" + Decimal(counter);
      counter := counter + 1;
      k := k + 1;
    }
  }

  /** Distinct candidates that are all taken cannot outnumber the listings. */
  lemma TriedFit(db: Listings, base: string, tried: seq<string>)
    requires forall j :: 0 <= j < |tried| ==> tried[j] == Candidate(base, j) && tried[j] in db
    ensures |tried| <= |db|
  {
    forall i, j | 0 <= i < j < |tried| ensures tried[i] != tried[j] {
      if Candidate(base, i) == Candidate(base, j) {
        CandidateInjective(base, i, j);
      }
    }
    NoDupBound(tried, db.Keys);
  }
}
