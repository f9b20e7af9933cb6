/** String operations of JavaScript that the models share. */
module Text {

  predicate IsSpace(c: char) {
    c == ' ' || '\U{0009}' <= c <= '\U{000D}' || c == '\U{00A0}' || c == '\U{1680}' || '\U{2000}' <= c <= '\U{200A}'
    || c == '\U{2028}' || c == '\U{2029}' || c == '\U{202F}' || c == '\U{205F}' || c == '\U{3000}' || c == '\U{FEFF}'
  }

  function Trim(s: string): string {
    if s != "" && IsSpace(s[0]) then Trim(s[1..])
    else if s != "" && IsSpace(s[|s| - 1]) then Trim(s[..|s| - 1])
    else s
  }

  /** The pieces between separators; there is always at least one. */
  function Split(s: string, sep: char): (r: seq<string>)
    ensures r != []
  {
    if s == "" then [""]
    else if s[0] == sep then [""] + Split(s[1..], sep)
    else
      var rest := Split(s[1..], sep);
      [[s[0]] + rest[0]] + rest[1..]
  }

  function TrimAll(parts: seq<string>): (r: seq<string>)
    ensures |r| == |parts|
  {
    seq(|parts|, i requires 0 <= i < |parts| => Trim(parts[i]))
  }

  /** Lower case, for the letters of language tags. */
  function Lower(s: string): (r: string)
    ensures |r| == |s|
  {
    seq(|s|, i requires 0 <= i < |s| => if 'A' <= s[i] <= 'Z' then (s[i] as int + 32) as char else s[i])
  }

  /** `replace` with a string: the first occurrence only. */
  function WithoutFirst(s: string, what: string): string
    requires what != ""
  {
    if |s| < |what| then s
    else if s[..|what|] == what then s[|what|..]
    else [s[0]] + WithoutFirst(s[1..], what)
  }

  // ----- what these operations mean -----

  /** The white space of JavaScript, one by one. */
  lemma Spaces(c: char)
    ensures IsSpace(c) <==> c in {
              '\t', '\n', '\U{000B}', '\U{000C}', '\r', ' ', '\U{00A0}', '\U{1680}', '\U{2000}', '\U{2001}', '\U{2002}',
              '\U{2003}', '\U{2004}', '\U{2005}', '\U{2006}', '\U{2007}', '\U{2008}', '\U{2009}', '\U{200A}',
                  '\U{2028}',
              '\U{2029}', '\U{202F}', '\U{205F}', '\U{3000}', '\U{FEFF}'}
  {
  }

  predicate AllSpace(s: string) {
    forall i :: 0 <= i < |s| ==> IsSpace(s[i])
  }

  /** White space at neither end. */
  predicate Tight(s: string) {
    s != "" ==> !IsSpace(s[0]) && !IsSpace(s[|s| - 1])
  }

  /** Trimming cuts white space off both ends, and all of it: what is left are the characters from i to j. */
  lemma {:induction false} TrimCuts(s: string) returns (i: nat, j: nat)
    ensures i <= j <= |s| && Trim(s) == s[i..j] && Tight(s[i..j])
    ensures forall k :: 0 <= k < i || j <= k < |s| ==> IsSpace(s[k])
  {
    if s != "" && IsSpace(s[0]) {
      i, j := TrimCuts(s[1..]);
      assert s[1..][i..j] == s[i + 1..j + 1];
      assert forall k :: 0 < k < |s| ==> s[k] == s[1..][k - 1];
      i, j := i + 1, j + 1;
    } else if s != "" && IsSpace(s[|s| - 1]) {
      i, j := TrimCuts(s[..|s| - 1]);
      assert s[..|s| - 1][i..j] == s[i..j];
    } else {
      i, j := 0, |s|;
    }
  }

  lemma {:induction false} TrimsTo(left: string, s: string, right: string)
    requires AllSpace(left) && AllSpace(right) && Tight(s)
    ensures Trim(left + s + right) == s
    decreases |left| + |right|
  {
    var all := left + s + right;
    if left != "" {
      assert all[0] == left[0] && all[1..] == left[1..] + s + right;
      TrimsTo(left[1..], s, right);
    } else if right != "" {
      assert all[|all| - 1] == right[|right| - 1];
      var fewer := right[..|right| - 1];
      assert all[..|all| - 1] == left + s + fewer;
      TrimsTo(left, s, fewer);
      if s == "" {
        assert IsSpace(all[0]);
        assert AllSpace(all[1..]);
        TrimSpace(all[1..]);
      }
    } else {
      assert all == s;
    }
  }

  lemma {:induction false} TrimSpace(s: string)
    requires AllSpace(s)
    ensures Trim(s) == ""
  {
    if s != "" {
      TrimSpace(s[1..]);
    }
  }

  /** The pieces with separators between them. */
  function Join(parts: seq<string>, sep: char): string
    requires parts != []
  {
    if |parts| == 1 then parts[0] else parts[0] + [sep] + Join(parts[1..], sep)
  }

  /** Splitting undoes joining: the pieces hold no separator and make up the text. */
  lemma {:induction false} SplitJoins(s: string, sep: char)
    ensures Join(Split(s, sep), sep) == s && forall p :: p in Split(s, sep) ==> sep !in p
  {
    if s != "" {
      SplitJoins(s[1..], sep);
      var rest := Split(s[1..], sep);
      assert s == [s[0]] + s[1..];
      if s[0] == sep {
        assert ([""] + rest)[1..] == rest;
      } else {
        assert ([[s[0]] + rest[0]] + rest[1..])[1..] == rest[1..];
      }
    }
  }

  lemma {:induction false} SplitAtFirst(a: string, sep: char, b: string)
    requires sep !in a
    ensures Split(a, sep) == [a]
    ensures Split(a + [sep] + b, sep) == [a] + Split(b, sep)
  {
    if a == "" {
      assert (a + [sep] + b)[1..] == b;
    } else {
      assert a[0] in a && a == [a[0]] + a[1..];
      assert (a + [sep] + b)[1..] == a[1..] + [sep] + b;
      SplitAtFirst(a[1..], sep, b);
    }
  }

  const CAPITALS := "ABCDEFGHIJKLMNOPQRSTUVWXYZ"
  const SMALLS := "abcdefghijklmnopqrstuvwxyz"

  /** Capital letters become the small ones. */
  lemma LowerLetter(s: string, i: nat, k: nat)
    requires i < |s| && k < 26 && s[i] == CAPITALS[k]
    ensures Lower(s)[i] == SMALLS[k]
  {
    assert CAPITALS[k] as int == 'A' as int + k && SMALLS[k] as int == 'a' as int + k;
  }

  /** Everything else stays. */
  lemma LowerOther(s: string, i: nat)
    requires i < |s| && s[i] !in CAPITALS
    ensures Lower(s)[i] == s[i]
  {
    if 'A' <= s[i] <= 'Z' {
      IsCapital(s[i]);
    }
  }

  lemma IsCapital(c: char)
    requires 'A' <= c <= 'Z'
    ensures c in CAPITALS
  {
    var k := c as int - 'A' as int;
    assert CAPITALS[k] as int == 'A' as int + k;
  }

  predicate OccursAt(s: string, what: string, i: nat) {
    i + |what| <= |s| && s[i..i + |what|] == what
  }

  /** The first occurrence goes, and what stands around it stays. */
  lemma {:induction false} WithoutFirstOccurrence(s: string, what: string, k: nat)
    requires what != "" && OccursAt(s, what, k) && forall i: nat :: i < k ==> !OccursAt(s, what, i)
    ensures WithoutFirst(s, what) == s[..k] + s[k + |what|..]
  {
    if k > 0 {
      var rest := s[1..];
      assert !OccursAt(s, what, 0);
      assert rest[k - 1..k - 1 + |what|] == s[k..k + |what|];
      forall i: nat | i < k - 1 ensures !OccursAt(rest, what, i) {
        assert !OccursAt(s, what, i + 1);
        assert i + |what| <= |rest| ==> rest[i..i + |what|] == s[i + 1..i + 1 + |what|];
      }
      WithoutFirstOccurrence(rest, what, k - 1);
      assert [s[0]] + rest[..k - 1] == s[..k];
    }
  }

  lemma {:induction false} WithoutNone(s: string, what: string)
    requires what != "" && forall i: nat :: !OccursAt(s, what, i)
    ensures WithoutFirst(s, what) == s
  {
    if |s| >= |what| {
      var rest := s[1..];
      assert !OccursAt(s, what, 0);
      forall i: nat ensures !OccursAt(rest, what, i) {
        assert !OccursAt(s, what, i + 1);
        assert i + |what| <= |rest| ==> rest[i..i + |what|] == s[i + 1..i + 1 + |what|];
      }
      WithoutNone(rest, what);
    }
  }

  // ----- numbers -----

  function Digit(d: nat): char
    requires d < 10
  {
    ('0' as int + d) as char
  }

  function Decimal(n: nat): string {
    if n < 10 then [Digit(n)] else Decimal(n / 10) + [Digit(n % 10)]
  }

  function Value(s: string): int {
    if s == "" then 0 else 10 * Value(s[..|s| - 1]) + (s[|s| - 1] as int - '0' as int)
  }

  lemma {:induction false} DecimalReadsBack(n: nat)
    ensures Value(Decimal(n)) == n
  {
    if n < 10 {
      assert Decimal(n)[..0] == "";
    } else {
      DecimalReadsBack(n / 10);
      assert Decimal(n)[..|Decimal(n)| - 1] == Decimal(n / 10);
    }
  }

  predicate IsDigit(c: char) {
    '0' <= c <= '9'
  }

  lemma {:induction false} DecimalIsDigits(n: nat)
    ensures forall c :: c in Decimal(n) ==> IsDigit(c)
  {
    if n >= 10 {
      DecimalIsDigits(n / 10);
    }
  }

  /** How many digits a text ends with. */
  function TrailingDigits(s: string): nat {
    if s == "" || !IsDigit(s[|s| - 1]) then 0 else 1 + TrailingDigits(s[..|s| - 1])
  }

  lemma {:induction false} TrailingDigitsOf(s: string, digits: string)
    requires s != "" && !IsDigit(s[|s| - 1]) && forall c :: c in digits ==> IsDigit(c)
    ensures TrailingDigits(s + digits) == |digits|
  {
    if digits == "" {
      assert s + digits == s;
    } else {
      var init := digits[..|digits| - 1];
      assert digits[|digits| - 1] in digits && (s + digits)[..|s + digits| - 1] == s + init;
      TrailingDigitsOf(s, init);
    }
  }

  /** A number at the end of a text, after something that is no digit, can be read back. */
  lemma EndsInNumber(s: string, m: nat, t: string, n: nat)
    requires s != "" && t != "" && !IsDigit(s[|s| - 1]) && !IsDigit(t[|t| - 1])
    requires s + Decimal(m) == t + Decimal(n)
    ensures s == t && m == n
  {
    DecimalIsDigits(m);
    DecimalIsDigits(n);
    TrailingDigitsOf(s, Decimal(m));
    TrailingDigitsOf(t, Decimal(n));
    assert s == (s + Decimal(m))[..|s|] && t == (t + Decimal(n))[..|s|];
    assert Decimal(m) == (s + Decimal(m))[|s|..] && Decimal(n) == (t + Decimal(n))[|s|..];
    DecimalReadsBack(m);
    DecimalReadsBack(n);
  }
}
