/** Colon-separated string keys. */
module Keys {

  predicate ColonFree(s: string) {
    ':' !in s
  }

  /** The number of characters before the first colon. */
  function UpToColon(s: string): nat {
    if s == "" || s[0] == ':' then 0 else 1 + UpToColon(s[1..])
  }

  lemma {:induction false} UpToColonOf(a: string, x: string)
    requires ColonFree(a)
    ensures UpToColon(a + ":" + x) == |a|
  {
    if a != "" {
      assert (a + ":" + x)[1..] == a[1..] + ":" + x;
      UpToColonOf(a[1..], x);
    }
  }

  /** A colon-free first component can be read back from a key. */
  lemma FirstComponent(a: string, x: string, b: string, y: string)
    requires ColonFree(a) && ColonFree(b)
    requires a + ":" + x == b + ":" + y
    ensures a == b && x == y
  {
    UpToColonOf(a, x);
    UpToColonOf(b, y);
    assert a == (a + ":" + x)[..|a|] && b == (b + ":" + y)[..|a|];
    assert x == (a + ":" + x)[|a| + 1..] && y == (b + ":" + y)[|a| + 1..];
  }

  /** The number of characters after the last colon. */
  function AfterColon(s: string): nat {
    if s == "" || s[|s| - 1] == ':' then 0 else 1 + AfterColon(s[..|s| - 1])
  }

  lemma {:induction false} AfterColonOf(x: string, a: string)
    requires ColonFree(a)
    ensures AfterColon(x + ":" + a) == |a|
  {
    if a != "" {
      var k := x + ":" + a;
      assert k[..|k| - 1] == x + ":" + a[..|a| - 1];
      assert k[|k| - 1] == a[|a| - 1];
      AfterColonOf(x, a[..|a| - 1]);
    }
  }

  /** A colon-free last component can be read back from a key. */
  lemma LastComponent(x: string, a: string, y: string, b: string)
    requires ColonFree(a) && ColonFree(b)
    requires x + ":" + a == y + ":" + b
    ensures a == b && x == y
  {
    AfterColonOf(x, a);
    AfterColonOf(y, b);
    assert x == (x + ":" + a)[..|x|] && y == (y + ":" + b)[..|x|];
    assert a == (x + ":" + a)[|x| + 1..] && b == (y + ":" + b)[|x| + 1..];
  }

  lemma HasColon(a: string, x: string)
    ensures !ColonFree(a + ":" + x)
  {
    assert (a + ":" + x)[|a|] == ':';
  }

  lemma SamePrefix(p: string, x: string, y: string)
    requires p + x == p + y
    ensures x == y
  {
    assert x == (p + x)[|p|..];
    assert y == (p + y)[|p|..];
  }
}
