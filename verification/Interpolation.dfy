/**
 * Placeholder interpolation of libs/i18n/src/i18n.service.ts and libs/translations/src/translation.service.ts,
 * for parameter names that mean themselves inside a regular expression.
 */
module Interpolation {
  predicate BraceFree(s: string) {
    '{' !in s && '}' !in s
  }

  // ----- the code: one global replacement per parameter -----

  /** The replacement patterns of `String.prototype.replace` for a pattern without groups. */
  function Expand(value: string, matched: string, before: string, after: string): string {
    if value == "" then ""
    else if value[0] == '$' && |value| > 1 && value[1] == '$' then "$" + Expand(value[2..], matched, before, after)
    else if value[0] == '$' && |value| > 1 && value[1] == '&' then matched + Expand(value[2..], matched, before, after)
    else if value[0] == '$' && |value| > 1 && value[1] == '`' then before + Expand(value[2..], matched, before, after)
    else if value[0] == '$' && |value| > 1 && value[1] == '\'' then after + Expand(value[2..], matched, before, after)
    else [value[0]] + Expand(value[1..], matched, before, after)
  }

  function Hole(key: string): string {
    "{" + key + "}"
  }

  /** Replaces every `{key}` of `rest`, left to right; `before` is the text already passed. */
  function ReplaceAll(before: string, rest: string, key: string, value: string): string
    decreases |rest|
  {
    if rest == "" then ""
    else if Hole(key) <= rest then
      var after := rest[|Hole(key)|..];
      Expand(value, Hole(key), before, after) + ReplaceAll(before + Hole(key), after, key, value)
    else [rest[0]] + ReplaceAll(before + [rest[0]], rest[1..], key, value)
  }

  /** Parameters in the order of their entries; an object has each key once. */
  type Params = seq<(string, string)>

  function Sequential(s: string, params: Params): string {
    if params == [] then s
    else
      var init, last := params[..|params| - 1], params[|params| - 1];
      ReplaceAll("", Sequential(s, init), last.0, last.1)
  }

  method Interpolate(translation: string, params: Params) returns (result: string)
    ensures result == Sequential(translation, params)
  {
    result := translation;
    for i := 0 to |params|
      invariant result == Sequential(translation, params[..i])
    {
      assert params[..i + 1][..i] == params[..i];
      result := ReplaceAll("", result, params[i].0, params[i].1);
    }
    assert params[..|params|] == params;
  }

  // ----- the meaning: all placeholders at once -----

  datatype Piece = Plain(text: string) | Placeholder(key: string)

  /** Braces occur only around placeholder names. */
  predicate Flat(pieces: seq<Piece>) {
    forall p :: p in pieces ==> if p.Plain? then BraceFree(p.text) else BraceFree(p.key)
  }

  function RenderPiece(p: Piece, values: map<string, string>): string {
    match p
    case Plain(text) => text
    case Placeholder(key) => if key in values then values[key] else Hole(key)
  }

  /** The template with the given placeholders replaced, all at once. */
  function Render(pieces: seq<Piece>, values: map<string, string>): string {
    if pieces == [] then "" else RenderPiece(pieces[0], values) + Render(pieces[1..], values)
  }

  function Template(pieces: seq<Piece>): string {
    Render(pieces, map[])
  }

  function Values(params: Params): map<string, string> {
    if params == [] then map[] else Values(params[..|params| - 1])[params[|params| - 1].0 := params[|params| - 1].1]
  }

  predicate DistinctKeys(params: Params) {
    forall i, j :: 0 <= i < j < |params| ==> params[i].0 != params[j].0
  }

  /** No dollar sign is followed by a character that makes it a replacement pattern; "$5" is fine. */
  predicate NoPattern(value: string) {
    forall i :: 0 <= i < |value| - 1 && value[i] == '$' ==> !EndsPattern(value[i + 1])
  }

  predicate EndsPattern(c: char) {
    c == '$' || c == '&' || c == '`' || c == '\''
  }

  /** Names without braces; values without opening braces or replacement patterns. */
  predicate PlainParams(params: Params) {
    forall p :: p in params ==> BraceFree(p.0) && '{' !in p.1 && NoPattern(p.1)
  }

  // ----- proofs -----

  lemma {:induction false} ExpandLiteral(value: string, matched: string, before: string, after: string)
    requires NoPattern(value)
    ensures Expand(value, matched, before, after) == value
  {
    if value != "" {
      assert forall i :: 0 <= i < |value| - 1 ==> value[1..][i] == value[i + 1];
      assert |value| > 1 && value[0] == '$' ==> !EndsPattern(value[0 + 1]);
      ExpandLiteral(value[1..], matched, before, after);
      assert value == [value[0]] + value[1..];
    }
  }

  /** Text without an opening brace is passed over unchanged. */
  lemma {:induction false} SkipText(before: string, text: string, rest: string, key: string, value: string)
    requires '{' !in text
    ensures ReplaceAll(before, text + rest, key, value) == text + ReplaceAll(before + text, rest, key, value)
    decreases |text|
  {
    if text == "" {
      assert text + rest == rest && before + text == before;
    } else {
      assert (text + rest)[0] == text[0] && text[0] in text;
      assert Hole(key)[0] == '{';
      assert (text + rest)[1..] == text[1..] + rest;
      SkipText(before + [text[0]], text[1..], rest, key, value);
      assert before + [text[0]] + text[1..] == before + text;
      assert [text[0]] + text[1..] == text;
    }
  }

  /** A placeholder of another name is passed over; names end at the closing brace. */
  lemma SkipHole(before: string, other: string, rest: string, key: string, value: string)
    requires BraceFree(key) && BraceFree(other) && key != other
    ensures ReplaceAll(before, Hole(other) + rest, key, value)
      == Hole(other) + ReplaceAll(before + Hole(other), rest, key, value)
  {
    var s := Hole(other) + rest;
    if Hole(key) <= s {
      HoleNamesAgree(key, other, rest);
    }
    assert s[0] == '{' && s[1..] == (other + "}") + rest;
    SkipText(before + "{", other + "}", rest, key, value);
    assert before + "{" + (other + "}") == before + Hole(other);
  }

  lemma HoleNamesAgree(key: string, other: string, rest: string)
    requires BraceFree(key) && BraceFree(other) && Hole(key) <= Hole(other) + rest
    ensures key == other
  {
    var s := Hole(other) + rest;
    var tail := s[|Hole(key)|..];
    NameEnds(key, tail);
    NameEnds(other, rest);
    assert s[1..] == other + "}" + rest;
    assert s == Hole(key) + tail;
    assert s[1..] == key + "}" + tail;
    assert key == s[1..][..|key|] && other == s[1..][..|key|];
  }

  function UpToBrace(s: string): nat {
    if s == "" || s[0] == '}' then 0 else 1 + UpToBrace(s[1..])
  }

  lemma {:induction false} NameEnds(name: string, rest: string)
    requires BraceFree(name)
    ensures UpToBrace(name + "}" + rest) == |name|
  {
    if name != "" {
      assert (name + "}" + rest)[1..] == name[1..] + "}" + rest;
      assert name[0] in name;
      NameEnds(name[1..], rest);
    }
  }

  /** One replacement fills exactly the placeholders of its name. */
  lemma {:induction false} ReplaceFills(before: string, pieces: seq<Piece>, values: map<string, string>, key: string,
      value: string)
    requires Flat(pieces) && BraceFree(key) && NoPattern(value) && key !in values
    requires forall k :: k in values ==> '{' !in values[k]
    ensures ReplaceAll(before, Render(pieces, values), key, value) == Render(pieces, values[key := value])
    decreases |pieces|
  {
    if pieces != [] {
      var p := pieces[0];
      assert p in pieces;
      var head, tail := RenderPiece(p, values), Render(pieces[1..], values);
      ReplaceFills(before + head, pieces[1..], values, key, value);
      if p == Placeholder(key) {
        var s := Hole(key) + tail;
        assert s[|Hole(key)|..] == tail;
        ExpandLiteral(value, Hole(key), before, tail);
      } else if p.Placeholder? && p.key !in values {
        SkipHole(before, p.key, tail, key, value);
      } else {
        SkipText(before, head, tail, key, value);
      }
    }
  }

  lemma {:induction false} ValuesOf(params: Params)
    ensures forall k :: k in Values(params) <==> exists i :: 0 <= i < |params| && params[i].0 == k
    ensures forall k :: k in Values(params) ==> exists i :: 0 <= i < |params| && params[i] == (k, Values(params)[k])
  {
    if params != [] {
      var n := |params| - 1;
      ValuesOf(params[..n]);
      assert forall i :: 0 <= i < n ==> params[..n][i] == params[i];
    }
  }

  lemma PlainValues(params: Params)
    requires PlainParams(params)
    ensures forall k :: k in Values(params) ==> '{' !in Values(params)[k]
  {
    ValuesOf(params);
    forall k | k in Values(params) ensures '{' !in Values(params)[k] {
      var i :| 0 <= i < |params| && params[i] == (k, Values(params)[k]);
      assert params[i] in params;
    }
  }

  lemma LastKeyIsNew(params: Params)
    requires DistinctKeys(params) && params != []
    ensures params[|params| - 1].0 !in Values(params[..|params| - 1])
  {
    var init := params[..|params| - 1];
    ValuesOf(init);
    assert forall i :: 0 <= i < |init| ==> init[i] == params[i];
  }

  /**
   * For templates whose braces are flat placeholders, and values without opening braces or
   * replacement patterns, replacing the parameters one after another is replacing them all at once.
   */
  lemma {:induction false} SequentialIsSimultaneous(pieces: seq<Piece>, params: Params)
    requires Flat(pieces) && DistinctKeys(params) && PlainParams(params)
    ensures Sequential(Template(pieces), params) == Render(pieces, Values(params))
  {
    if params != [] {
      var n := |params| - 1;
      var init := params[..n];
      assert forall p :: p in init ==> p in params;
      SequentialIsSimultaneous(pieces, init);
      assert params[n] in params;
      PlainValues(init);
      LastKeyIsNew(params);
      ReplaceFills("", pieces, Values(init), params[n].0, params[n].1);
    }
  }

  /** So the order of the parameters does not matter. */
  lemma OrderDoesNotMatter(pieces: seq<Piece>, params: Params, other: Params)
    requires Flat(pieces) && DistinctKeys(params) && PlainParams(params) && DistinctKeys(other)
    requires forall p :: p in params <==> p in other
    ensures Sequential(Template(pieces), params) == Sequential(Template(pieces), other)
  {
    SequentialIsSimultaneous(pieces, params);
    SequentialIsSimultaneous(pieces, other);
    forall k | k in Values(params) ensures k in Values(other) && Values(params)[k] == Values(other)[k] {
      SameValue(params, other, k);
    }
    forall k | k in Values(other) ensures k in Values(params) {
      SameValue(other, params, k);
    }
    assert Values(params) == Values(other);
  }

  lemma SameValue(params: Params, other: Params, k: string)
    requires DistinctKeys(other) && k in Values(params)
    requires forall p :: p in params ==> p in other
    ensures k in Values(other) && Values(params)[k] == Values(other)[k]
  {
    ValuesOf(params);
    ValuesOf(other);
    var i :| 0 <= i < |params| && params[i] == (k, Values(params)[k]);
    assert params[i] in params;
    var j :| 0 <= j < |other| && other[j] == params[i];
    var m :| 0 <= m < |other| && other[m] == (k, Values(other)[k]);
    assert j == m;
  }

  // ----- exactly when a value is copied -----

  /** Between two braces, a value with a replacement pattern is never copied. */
  lemma {:induction false} PatternIsSeen(value: string, key: string)
    requires Expand(value, Hole(key), "{", "{") == value
    ensures NoPattern(value)
  {
    if |value| > 1 && value[0] == '$' && EndsPattern(value[1]) {
      var rest := Expand(value[2..], Hole(key), "{", "{");
      if value[1] == '$' {
        assert value == "$" + rest && value == "$$" + value[2..];
        assert rest == value[1..] == Dollars(1) + value[2..];
        NeverMoreDollars(value[2..], key, 1);
      }
      assert false;
    } else if value != "" {
      var rest := Expand(value[1..], Hole(key), "{", "{");
      assert value == [value[0]] + rest;
      assert rest == value[1..];
      PatternIsSeen(value[1..], key);
      assert forall i :: 1 <= i < |value| - 1 ==> value[i] == value[1..][i - 1] && value[i + 1] == value[1..][i];
    }
  }

  function Dollars(n: nat): string {
    seq(n, i => '$')
  }

  lemma {:induction false} NeverMoreDollars(value: string, key: string, n: nat)
    requires n > 0
    ensures Expand(value, Hole(key), "{", "{") != Dollars(n) + value
  {
    var more := Dollars(n) + value;
    if value != "" {
      assert more[0] == '$';
      if |value| > 1 && value[0] == '$' && value[1] == '$' {
        NeverMoreDollars(value[2..], key, n + 1);
        assert more[1..] == Dollars(n + 1) + value[2..];
      } else {
        NeverMoreDollars(value[1..], key, n);
        assert value[0] == '$' ==> more[1..] == Dollars(n) + value[1..];
      }
    }
  }

  /** A placeholder between two opening braces. */
  function Braced(value: string): string {
    "{" + value + "{"
  }

  lemma ReplaceInBraces(key: string, value: string)
    requires BraceFree(key)
    ensures ReplaceAll("", Braced(Hole(key)), key, value) == Braced(Expand(value, Hole(key), "{", "{"))
  {
    var s, hole := Braced(Hole(key)), Hole(key);
    assert s[1] == '{' && (key != "" ==> hole[1] == key[0] && key[0] in key);
    assert !(hole <= s);
    assert s[1..] == hole + "{" && (hole + "{")[|hole|..] == "{" && "" + [s[0]] == "{";
    assert ReplaceAll("", s, key, value) == [s[0]] + ReplaceAll("{", hole + "{", key, value);
    assert hole <= hole + "{";
    assert ReplaceAll("{", hole + "{", key, value)
           == Expand(value, hole, "{", "{") + ReplaceAll("{" + hole, "{", key, value);
    assert !(hole <= "{") && "{"[1..] == "";
    assert ReplaceAll("{" + hole, "{", key, value) == "{" + "";
  }

  /**
   * Exactly the values without a replacement pattern are copied as they are, whatever the
   * placeholder and whatever stands around it; one template is enough to tell.
   */
  lemma CopiedIff(key: string, value: string)
    requires BraceFree(key)
    ensures NoPattern(value) <==> forall before, after :: Expand(value, Hole(key), before, after) == value
    ensures NoPattern(value) <==> ReplaceAll("", Braced(Hole(key)), key, value) == Braced(value)
  {
    ReplaceInBraces(key, value);
    var between := Expand(value, Hole(key), "{", "{");
    assert Braced(between)[1..|between| + 1] == between && Braced(value)[1..|value| + 1] == value;
    if between == value {
      PatternIsSeen(value, key);
    }
    if NoPattern(value) {
      forall before, after ensures Expand(value, Hole(key), before, after) == value {
        ExpandLiteral(value, Hole(key), before, after);
      }
    }
  }

  /** "$&" is not copied, "$5" is. */
  lemma DollarInValue()
    ensures NoPattern("$5") && !NoPattern("$&")
  {
    assert "$&"[0] == '$' && EndsPattern("$&"[1]);
  }

  // ----- what a value with patterns means -----

  datatype Part = Literal(text: string) | Dollar | Match | Before | After

  function Written(parts: seq<Part>): string {
    if parts == [] then ""
    else
      (match parts[0]
       case Literal(t) => t
       case Dollar => "$$"
       case Match => "$&"
       case Before => "$`"
       case After => ['$', '\'']) + Written(parts[1..])
  }

  function Meaning(parts: seq<Part>, matched: string, before: string, after: string): string {
    if parts == [] then ""
    else
      (match parts[0]
       case Literal(t) => t
       case Dollar => "$"
       case Match => matched
       case Before => before
       case After => after) + Meaning(parts[1..], matched, before, after)
  }

  /** Text that does not run into a pattern after it. */
  predicate Closed(p: Part) {
    p.Literal? ==> NoPattern(p.text) && (p.text != "" ==> p.text[|p.text| - 1] != '$')
  }

  lemma {:induction false} ExpandText(text: string, rest: string, matched: string, before: string, after: string)
    requires Closed(Literal(text))
    ensures Expand(text + rest, matched, before, after) == text + Expand(rest, matched, before, after)
  {
    if text == "" {
      assert text + rest == rest;
    } else {
      var tail := text[1..];
      ClosedTail(text);
      ExpandText(tail, rest, matched, before, after);
      assert (text + rest)[1..] == tail + rest && text == [text[0]] + tail;
      assert |text| > 1 ==> (text + rest)[1] == text[1];
      assert text[0] == '$' ==> |text| > 1 && !EndsPattern((text + rest)[1]);
      ExpandOther(text + rest, matched, before, after);
      assert [text[0]] + (tail + Expand(rest, matched, before, after)) == text + Expand(rest, matched, before, after);
    }
  }

  lemma ExpandOther(value: string, matched: string, before: string, after: string)
    requires value != "" && !(value[0] == '$' && |value| > 1 && EndsPattern(value[1]))
    ensures Expand(value, matched, before, after) == [value[0]] + Expand(value[1..], matched, before, after)
  {
  }

  lemma ClosedTail(text: string)
    requires text != "" && Closed(Literal(text))
    ensures Closed(Literal(text[1..])) && (text[0] == '$' ==> |text| > 1 && !EndsPattern(text[1]))
  {
    assert forall i :: 0 <= i < |text| - 1 ==> text[1..][i] == text[i + 1];
    assert |text| > 1 && text[0] == '$' ==> !EndsPattern(text[0 + 1]);
  }

  /** Every pattern of a value is replaced by what it stands for, wherever it is, and the text between is kept. */
  lemma {:induction false} ExpandParts(parts: seq<Part>, matched: string, before: string, after: string)
    requires forall p :: p in parts ==> Closed(p)
    ensures Expand(Written(parts), matched, before, after) == Meaning(parts, matched, before, after)
  {
    if parts != [] {
      var p, rest := parts[0], Written(parts[1..]);
      assert p in parts;
      ExpandParts(parts[1..], matched, before, after);
      if p.Literal? {
        ExpandText(p.text, rest, matched, before, after);
      } else {
        assert ("$$" + rest)[2..] == rest && ("$&" + rest)[2..] == rest;
        assert ("$`" + rest)[2..] == rest && (['$', '\''] + rest)[2..] == rest;
      }
    }
  }

  // ----- exactly when the order of two parameters matters -----

  predicate Occurs(key: string, s: string) {
    exists i :: 0 <= i <= |s| && Hole(key) <= s[i..]
  }

  lemma OccursLater(key: string, s: string)
    requires s != "" && !(Hole(key) <= s)
    ensures Occurs(key, s) <==> Occurs(key, s[1..])
  {
    if i :| 0 <= i <= |s| && Hole(key) <= s[i..] {
      assert s[0..] == s;
      assert s[i..] == s[1..][i - 1..];
    }
    if i :| 0 <= i <= |s[1..]| && Hole(key) <= s[1..][i..] {
      assert s[1..][i..] == s[i + 1..];
    }
  }

  /** Replacing by a longer value never shortens, replacing by a shorter one never lengthens. */
  lemma {:induction false} LengthMoves(before: string, s: string, key: string, value: string)
    requires NoPattern(value)
    ensures |value| >= |Hole(key)| ==> |ReplaceAll(before, s, key, value)| >= |s|
    ensures |value| <= |Hole(key)| ==> |ReplaceAll(before, s, key, value)| <= |s|
    decreases |s|
  {
    if s != "" {
      if Hole(key) <= s {
        var after := s[|Hole(key)|..];
        ExpandLiteral(value, Hole(key), before, after);
        LengthMoves(before + Hole(key), after, key, value);
      } else {
        LengthMoves(before + [s[0]], s[1..], key, value);
      }
    }
  }

  /** Replacing a placeholder changes a text if and only if it occurs there and its value is not itself. */
  lemma {:induction false} ReplacementChangesIff(before: string, s: string, key: string, value: string)
    requires NoPattern(value)
    ensures ReplaceAll(before, s, key, value) != s <==> Occurs(key, s) && value != Hole(key)
    decreases |s|
  {
    if s == "" {
      assert forall i :: 0 <= i <= |s| ==> s[i..] == "";
    } else if Hole(key) <= s {
      var hole, after := Hole(key), s[|Hole(key)|..];
      assert s[0..] == s && s == hole + after;
      ExpandLiteral(value, hole, before, after);
      var replaced := ReplaceAll(before + hole, after, key, value);
      assert ReplaceAll(before, s, key, value) == value + replaced;
      ReplacementChangesIff(before + hole, after, key, value);
      if value != hole {
        LengthMoves(before + hole, after, key, value);
        assert |value| == |hole| ==> (value + replaced)[..|value|] == value && s[..|hole|] == hole;
      }
    } else {
      OccursLater(key, s);
      ReplacementChangesIff(before + [s[0]], s[1..], key, value);
      var replaced := ReplaceAll(before + [s[0]], s[1..], key, value);
      assert ReplaceAll(before, s, key, value) == [s[0]] + replaced;
      assert ([s[0]] + replaced)[1..] == replaced && s == [s[0]] + s[1..];
    }
  }

  lemma OneHole(key: string, value: string)
    requires NoPattern(value)
    ensures ReplaceAll("", Hole(key), key, value) == value
  {
    var after := Hole(key)[|Hole(key)|..];
    assert after == "";
    assert ReplaceAll("" + Hole(key), "", key, value) == "";
    ExpandLiteral(value, Hole(key), "", "");
  }

  /**
   * The placeholder of `key` is in the value, or arises between two copies of it: the one ends with
   * an opening brace and the first part of the name, the other begins with the last part and a
   * closing brace.
   */
  predicate Forms(key: string, value: string) {
    Occurs(key, value) || exists i, j :: 0 <= i <= j <= |key| && Joins(key, value, i, j)
  }

  predicate Joins(key: string, value: string, i: nat, j: nat)
    requires i <= j <= |key|
  {
    EndsWith(value, "{" + key[..i]) && key[j..] + "}" <= value
  }

  predicate EndsWith(s: string, end: string) {
    |end| <= |s| && s[|s| - |end|..] == end
  }

  /** A chunk in which no placeholder begins is passed over. */
  lemma {:induction false} SkipChunk(before: string, chunk: string, rest: string, key: string, value: string)
    requires forall i :: 0 <= i < |chunk| ==> !(Hole(key) <= chunk[i..] + rest)
    ensures ReplaceAll(before, chunk + rest, key, value) == chunk + ReplaceAll(before + chunk, rest, key, value)
    decreases |chunk|
  {
    if chunk == "" {
      assert chunk + rest == rest && before + chunk == before;
    } else {
      var tail := chunk[1..];
      assert chunk[0..] == chunk && (chunk + rest)[1..] == tail + rest;
      assert forall i :: 0 <= i < |tail| ==> tail[i..] == chunk[i + 1..];
      SkipChunk(before + [chunk[0]], tail, rest, key, value);
      assert before + [chunk[0]] + tail == before + chunk && [chunk[0]] + tail == chunk;
    }
  }

  /** If a rendered template goes on with part of a name and a closing brace, so does, after plain text, the value. */
  lemma {:induction false} NameGoesOn(pieces: seq<Piece>, a: string, value: string, name: string) returns (m: nat)
    requires Flat(pieces) && BraceFree(name) && '{' in value && name + "}" <= Render(pieces, map[a := value])
    ensures m <= |name| && name[m..] + "}" <= value
    decreases |pieces|
  {
    var p, values := pieces[0], map[a := value];
    assert p in pieces;
    var head, tail := RenderPiece(p, values), Render(pieces[1..], values);
    assert (head + tail)[|name|] == '}' && forall i :: 0 <= i < |name| ==> (head + tail)[i] == name[i];
    if p.Plain? {
      PlainIsPassed(name, head, tail);
      m := NameGoesOn(pieces[1..], a, value, name[|head|..]);
      assert name[|head|..][m..] == name[|head| + m..];
      m := |head| + m;
    } else {
      m := 0;
      HeadEndsName(p, a, value, name, tail);
    }
  }

  lemma BraceInText(name: string, text: string, tail: string)
    requires name + "}" <= text + tail && |name| < |text|
    ensures '}' in text
  {
    assert text[|name|] == (text + tail)[|name|] == (name + "}")[|name|];
  }

  lemma BraceInName(name: string, text: string, tail: string)
    requires name + "}" <= text + tail && |text| <= |name| && '{' in text
    ensures '{' in name
  {
    var i :| 0 <= i < |text| && text[i] == '{';
    assert name[i] == (name + "}")[i] == (text + tail)[i];
  }

  lemma PlainIsPassed(name: string, text: string, tail: string)
    requires BraceFree(name) && BraceFree(text) && name + "}" <= text + tail
    ensures text <= name && name[|text|..] + "}" <= tail
  {
    if |name| < |text| {
      BraceInText(name, text, tail);
    }
    assert text == (text + tail)[..|text|] == (name + "}")[..|text|];
    assert tail == (text + tail)[|text|..];
    assert (name + "}")[|text|..] == name[|text|..] + "}";
  }

  lemma HeadEndsName(p: Piece, a: string, value: string, name: string, tail: string)
    requires p.Placeholder? && BraceFree(name) && '{' in value
    requires name + "}" <= RenderPiece(p, map[a := value]) + tail
    ensures name[0..] + "}" <= value
  {
    var head := RenderPiece(p, map[a := value]);
    assert (name + "}")[0] == (head + tail)[0];
    assert name != "" ==> name[0] in name;
    if |value| <= |name| {
      BraceInName(name, value, tail);
    } else {
      assert name + "}" == (value + tail)[..|name| + 1] == value[..|name| + 1];
    }
  }

  /** A placeholder that begins in the value, and is not in it, is joined with a later copy of the value. */
  lemma NoneBegins(pieces: seq<Piece>, a: string, value: string, key: string, k: nat)
    requires Flat(pieces) && BraceFree(key) && k < |value| && Hole(key) <= value[k..] + Render(pieces, map[a := value])
    ensures Forms(key, value)
  {
    var part, rest := value[k..], Render(pieces, map[a := value]);
    if |Hole(key)| <= |part| {
      assert Hole(key) <= part;
    } else {
      var i := |part| - 1;
      assert part == (part + rest)[..i + 1] == Hole(key)[..i + 1] == "{" + key[..i];
      assert part[0] == '{' && value[k] == '{';
      assert key[i..] + "}" == Hole(key)[i + 1..];
      assert Hole(key)[i + 1..] <= rest by {
        assert (part + rest)[i + 1..] == rest;
      }
      var m := NameGoesOn(pieces, a, value, key[i..]);
      assert key[i..][m..] == key[i + m..];
      assert Joins(key, value, i, i + m);
    }
  }

  /**
   * If the value forms no placeholder of `b`, the second replacement fills exactly the placeholders
   * of the template.
   */
  lemma {:induction false} SecondFills(before: string, pieces: seq<Piece>, a: string, v: string, b: string, w: string)
    requires Flat(pieces) && BraceFree(a) && BraceFree(b) && a != b && NoPattern(w) && !Forms(b, v)
    ensures ReplaceAll(before, Render(pieces, map[a := v]), b, w) == Render(pieces, map[a := v, b := w])
    decreases |pieces|
  {
    if pieces != [] {
      var p := pieces[0];
      assert p in pieces;
      var head, tail := RenderPiece(p, map[a := v]), Render(pieces[1..], map[a := v]);
      SecondFills(before + head, pieces[1..], a, v, b, w);
      if p == Placeholder(b) {
        var s := Hole(b) + tail;
        assert s[|Hole(b)|..] == tail;
        ExpandLiteral(w, Hole(b), before, tail);
      } else if p == Placeholder(a) {
        forall k | 0 <= k < |v| ensures !(Hole(b) <= v[k..] + tail) {
          if Hole(b) <= v[k..] + tail {
            NoneBegins(pieces[1..], a, v, b, k);
          }
        }
        SkipChunk(before, v, tail, b, w);
      } else if p.Placeholder? {
        SkipHole(before, p.key, tail, b, w);
      } else {
        SkipText(before, head, tail, b, w);
      }
    }
  }

  /** The two parameters, replaced one after the other. */
  lemma TwoInTurn(s: string, a: string, v: string, b: string, w: string)
    ensures Sequential(s, [(a, v), (b, w)]) == ReplaceAll("", ReplaceAll("", s, a, v), b, w)
    ensures a != b ==> Values([(a, v), (b, w)]) == map[a := v, b := w]
  {
    var params := [(a, v), (b, w)];
    assert params[..1] == [(a, v)] && params[..1][..0] == [];
    assert Sequential(s, params[..1]) == ReplaceAll("", s, a, v);
    assert Values(params[..1]) == map[a := v];
  }

  ghost predicate AlwaysSimultaneous(params: Params) {
    forall pieces :: Flat(pieces) ==> Sequential(Template(pieces), params) == Render(pieces, Values(params))
  }

  /**
   * Replacing two parameters one after the other is replacing them at once, on every flat template,
   * if and only if the value of the first forms no placeholder of the second, or the second's value
   * is its own placeholder.
   */
  lemma SimultaneousIff(a: string, v: string, b: string, w: string)
    requires BraceFree(a) && BraceFree(b) && a != b && NoPattern(v) && NoPattern(w)
    ensures AlwaysSimultaneous([(a, v), (b, w)]) <==> FillsOnlyTemplate(v, b, w)
  {
    var params := [(a, v), (b, w)];
    if w == Hole(b) || !Forms(b, v) {
      forall pieces | Flat(pieces) ensures Sequential(Template(pieces), params) == Render(pieces, Values(params)) {
        TwoInTurn(Template(pieces), a, v, b, w);
        ReplaceFills("", pieces, map[], a, v);
        assert map[][a := v] == map[a := v];
        if w == Hole(b) {
          ReplacementChangesIff("", Render(pieces, map[a := v]), b, w);
          OwnHole(pieces, a, v, b);
        } else {
          SecondFills("", pieces, a, v, b, w);
        }
      }
    } else {
      var pieces := FormingTemplate(a, v, b);
      Formed(pieces, a, v, b, w);
    }
  }

  lemma {:induction false} OwnHole(pieces: seq<Piece>, a: string, v: string, b: string)
    requires a != b
    ensures Render(pieces, map[a := v, b := Hole(b)]) == Render(pieces, map[a := v])
  {
    if pieces != [] {
      OwnHole(pieces[1..], a, v, b);
    }
  }

  /** No placeholder of `b` in the template. */
  predicate Lacks(pieces: seq<Piece>, b: string) {
    forall i :: 0 <= i < |pieces| ==> pieces[i] != Placeholder(b)
  }

  lemma {:induction false} LackingFillsNothing(pieces: seq<Piece>, values: map<string, string>, b: string, w: string)
    requires Lacks(pieces, b)
    ensures Render(pieces, values[b := w]) == Render(pieces, values)
  {
    if pieces != [] {
      LackingFillsNothing(pieces[1..], values, b, w);
      assert RenderPiece(pieces[0], values[b := w]) == RenderPiece(pieces[0], values);
    }
  }

  /** A template without the placeholder of `b`, on which the first replacement forms it. */
  lemma FormingTemplate(a: string, v: string, b: string) returns (pieces: seq<Piece>)
    requires BraceFree(a) && BraceFree(b) && a != b && Forms(b, v)
    ensures Flat(pieces) && Lacks(pieces, b) && Occurs(b, Render(pieces, map[a := v]))
  {
    if Occurs(b, v) {
      pieces := [Placeholder(a)];
      assert Render(pieces[1..], map[a := v]) == "";
      assert Render(pieces, map[a := v]) == v + "" == v;
    } else {
      var i, j :| 0 <= i <= j <= |b| && Joins(b, v, i, j);
      pieces := [Placeholder(a), Plain(b[i..j]), Placeholder(a)];
      assert pieces[1..] == [Plain(b[i..j]), Placeholder(a)] && pieces[1..][1..] == [Placeholder(a)];
      assert Render([Placeholder(a)], map[a := v]) == v + Render([Placeholder(a)][1..], map[a := v]) == v;
      assert Render(pieces, map[a := v]) == v + (b[i..j] + v);
      JoinOccurs(b, v, i, j);
    }
  }

  lemma JoinOccurs(b: string, v: string, i: nat, j: nat)
    requires i <= j <= |b| && Joins(b, v, i, j)
    ensures Occurs(b, v + (b[i..j] + v))
  {
    var s, k := v + (b[i..j] + v), |v| - i - 1;
    assert v[k..] == "{" + b[..i];
    assert s[k..] == v[k..] + (b[i..j] + v);
    var tail := v[|b| - j + 1..];
    assert v == b[j..] + "}" + tail;
    assert s[k..] == "{" + b[..i] + (b[i..j] + (b[j..] + "}" + tail));
    assert b == b[..i] + (b[i..j] + b[j..]);
    assert s[k..] == Hole(b) + tail;
  }

  /** On such a template the second replacement changes what replacing at once, or in the other order, leaves. */
  lemma Formed(pieces: seq<Piece>, a: string, v: string, b: string, w: string)
    requires BraceFree(a) && BraceFree(b) && a != b && NoPattern(v) && NoPattern(w) && w != Hole(b)
    requires Flat(pieces) && Lacks(pieces, b) && Occurs(b, Render(pieces, map[a := v]))
    ensures var inTurn := Sequential(Template(pieces), [(a, v), (b, w)]);
            && inTurn != Render(pieces, Values([(a, v), (b, w)]))
            && inTurn != Sequential(Template(pieces), [(b, w), (a, v)])
  {
    TwoInTurn(Template(pieces), a, v, b, w);
    TwoInTurn(Template(pieces), b, w, a, v);
    ReplaceFills("", pieces, map[], a, v);
    ReplaceFills("", pieces, map[], b, w);
    LackingFillsNothing(pieces, map[], b, w);
    LackingFillsNothing(pieces, map[a := v], b, w);
    assert map[][a := v] == map[a := v] && map[][b := w] == map[b := w];
    ReplacementChangesIff("", Render(pieces, map[a := v]), b, w);
  }

  ghost predicate OrderNeverMatters(a: string, v: string, b: string, w: string) {
    forall pieces :: Flat(pieces) ==>
      Sequential(Template(pieces), [(a, v), (b, w)]) == Sequential(Template(pieces), [(b, w), (a, v)])
  }

  /** One parameter after the other fills nothing that the first replacement formed. */
  predicate FillsOnlyTemplate(v: string, b: string, w: string) {
    w == Hole(b) || !Forms(b, v)
  }

  /**
   * The order of two parameters matters on no flat template if and only if, in both orders, nothing
   * formed is filled.
   */
  lemma OrderMattersIff(a: string, v: string, b: string, w: string)
    requires BraceFree(a) && BraceFree(b) && a != b && NoPattern(v) && NoPattern(w)
    ensures OrderNeverMatters(a, v, b, w) <==> FillsOnlyTemplate(v, b, w) && FillsOnlyTemplate(w, a, v)
  {
    if FillsOnlyTemplate(v, b, w) && FillsOnlyTemplate(w, a, v) {
      SimultaneousIff(a, v, b, w);
      SimultaneousIff(b, w, a, v);
      TwoInTurn("", a, v, b, w);
      TwoInTurn("", b, w, a, v);
      assert map[a := v, b := w] == map[b := w, a := v];
    } else if !FillsOnlyTemplate(v, b, w) {
      var pieces := FormingTemplate(a, v, b);
      Formed(pieces, a, v, b, w);
    } else {
      var pieces := FormingTemplate(b, w, a);
      Formed(pieces, b, w, a, v);
    }
  }

  /** Two values that hold no placeholder, and yet form one: `{a}b{a}` becomes "}{b}{" before {b} is filled. */
  lemma BraceInValue()
    ensures !Occurs("b", "}{") && Forms("b", "}{")
  {
    assert Joins("b", "}{", 0, 1) by {
      assert "b"[..0] == "" && "b"[1..] == "" && "}{"[1..] == "{";
    }
    forall i | 0 <= i <= 2 ensures !(Hole("b") <= "}{"[i..]) {
    }
  }
}
