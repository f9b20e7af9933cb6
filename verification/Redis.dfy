/** The operations of libs/redis/src/redis.service.ts that the caches and tokens rely on. */
module Redis {
  import opened Collections

  /** A stored value; `expiresAt` is the millisecond from which it is gone. */
  datatype Entry<+V> = Entry(value: V, expiresAt: Option<nat>)

  type Store<V> = map<string, Entry<V>>

  predicate Live<V>(e: Entry<V>, now: nat) {
    e.expiresAt.Some? ==> now < e.expiresAt.value
  }

  function Lookup<V>(s: Store<V>, now: nat, key: string): Option<V> {
    if key in s && Live(s[key], now) then Some(s[key].value) else None
  }

  /** `setex` for a positive number of seconds, plain `set` for none. */
  function Put<V>(s: Store<V>, now: nat, key: string, value: V, ttl: nat): Store<V> {
    s[key := Entry(value, if ttl > 0 then Some(now + 1000 * ttl) else None)]
  }

  /** Glob patterns of the KEYS command: `*`, `?`, a backslash escape, and literal characters. */
  predicate GlobMatch(pattern: string, key: string)
    decreases |pattern| + |key|
  {
    if pattern == "" then key == ""
    else if pattern[0] == '*' then
      GlobMatch(pattern[1..], key) || (key != "" && GlobMatch(pattern, key[1..]))
    else if pattern[0] == '?' then key != "" && GlobMatch(pattern[1..], key[1..])
    else if pattern[0] == '\\' && |pattern| > 1 then
      key != "" && key[0] == pattern[1] && GlobMatch(pattern[2..], key[1..])
    else key != "" && key[0] == pattern[0] && GlobMatch(pattern[1..], key[1..])
  }

  predicate GlobFree(s: string) {
    '*' !in s && '?' !in s && '[' !in s && '\\' !in s
  }

  function DropMatching<V>(s: Store<V>, pattern: string): Store<V> {
    map k | k in s && !GlobMatch(pattern, k) :: s[k]
  }

  /** `prefix*` matches exactly the keys that begin with a prefix of ordinary characters. */
  lemma {:induction false} PrefixPattern(prefix: string, key: string)
    requires GlobFree(prefix)
    ensures GlobMatch(prefix + "*", key) <==> prefix <= key
  {
    var pattern := prefix + "*";
    if prefix == "" {
      assert pattern == "*";
      StarMatchesAll(key);
    } else {
      assert pattern[1..] == prefix[1..] + "*";
      assert pattern[0] == prefix[0];
      assert prefix[0] in prefix;
      if key != "" {
        PrefixPattern(prefix[1..], key[1..]);
        assert prefix == [prefix[0]] + prefix[1..] && key == [key[0]] + key[1..];
        assert prefix <= key <==> prefix[0] == key[0] && prefix[1..] <= key[1..];
      }
    }
  }

  lemma {:induction false} StarMatchesAll(key: string)
    ensures GlobMatch("*", key)
  {
    if key != "" {
      StarMatchesAll(key[1..]);
    } else {
      assert GlobMatch("", key);
    }
  }

  /** A star stands for any text. */
  lemma {:induction false} StarSkips(rest: string, key: string)
    ensures GlobMatch("*" + rest, key) <==> exists i :: 0 <= i <= |key| && GlobMatch(rest, key[i..])
  {
    var pattern := "*" + rest;
    assert pattern[1..] == rest && key[0..] == key;
    if key != "" {
      StarSkips(rest, key[1..]);
      assert forall i :: 0 <= i <= |key[1..]| ==> key[1..][i..] == key[i + 1..];
      if i :| 0 <= i <= |key| && GlobMatch(rest, key[i..]) {
        assert i > 0 ==> key[1..][i - 1..] == key[i..];
      }
    }
  }

  /** A question mark stands for any one character. */
  lemma {:induction false} QuestionMarks(pattern: string, key: string)
    requires forall i :: 0 <= i < |pattern| ==> pattern[i] == '?'
    ensures GlobMatch(pattern, key) <==> |key| == |pattern|
  {
    if pattern != "" && key != "" {
      QuestionMarks(pattern[1..], key[1..]);
    }
  }

  /** A text with a backslash before every character matches only itself. */
  function Escaped(s: string): string {
    if s == "" then "" else "\\" + [s[0]] + Escaped(s[1..])
  }

  lemma {:induction false} EscapedMatchesItself(s: string, key: string)
    ensures GlobMatch(Escaped(s), key) <==> key == s
  {
    if s != "" {
      assert Escaped(s)[2..] == Escaped(s[1..]) && Escaped(s)[0] == '\\' && Escaped(s)[1] == s[0];
      if key != "" {
        EscapedMatchesItself(s[1..], key[1..]);
        assert key == [key[0]] + key[1..] && s == [s[0]] + s[1..];
      }
    }
  }

  class RedisService<V(==)> {
    var entries: Store<V>
    /** The server's clock in milliseconds. */
    var now: nat

    constructor (now: nat)
      ensures entries == map[] && this.now == now
    {
      entries, this.now := map[], now;
    }

    method Get(key: string) returns (value: Option<V>)
      ensures value == Lookup(entries, now, key)
    {
      value := if key in entries && Live(entries[key], now) then Some(entries[key].value) else None;
    }

    method Set(key: string, value: V, ttl: nat)
      modifies this`entries
      ensures entries == Put(old(entries), now, key, value, ttl)
      ensures entries == old(entries)[key := if ttl == 0 then Entry(value, None)
        else Entry(value, Some(now + 1000 * ttl))]
    {
      var expiresAt := if ttl > 0 then Some(now + 1000 * ttl) else None;
      entries := entries[key := Entry(value, expiresAt)];
    }

    method Del(key: string)
      modifies this`entries
      ensures entries == old(entries) - {key}
    {
      entries := entries - {key};
    }

    method DelPattern(pattern: string)
      modifies this`entries
      ensures entries == DropMatching(old(entries), pattern)
    {
      var keys := set k | k in entries && GlobMatch(pattern, k);
      entries := entries - keys;
    }
  }
}
