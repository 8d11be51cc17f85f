// Sizzle's bounded caches, and the token arrays that tokenize shares with its
// callers: the deletion in select must not reach a cached array.

module Cache {
  import opened Wrappers

  /** The last `n` entries of `s`, all of them if there are fewer. */
  function Latest<T>(s: seq<T>, n: nat): seq<T> {
    if |s| <= n then s else s[|s| - n..]
  }

  lemma LatestNext<T>(s: seq<T>, n: nat, x: T)
    requires n > 0
    ensures Latest(s + [x], n) == if |s| < n then Latest(s, n) + [x] else Latest(s, n)[1..] + [x]
  {
  }

  lemma LatestMeaning<T>(s: seq<T>, n: nat)
    ensures |Latest(s, n)| == if |s| < n then |s| else n
    ensures Latest(s, n) == s[|s| - |Latest(s, n)|..]
  {
  }

  ghost predicate NoRepeat<T>(s: seq<T>) {
    forall i, j :: 0 <= i < j < |s| ==> s[i] != s[j]
  }

  /** createCache() */
  class BoundedCache<K(==,!new), V> {
    const cacheLength: nat
    var keys: seq<K>
    var cache: map<K, V>
    /** Every key ever put. */
    ghost var put: seq<K>

    /** What any use keeps. */
    ghost predicate Valid()
      reads this
    {
      && cacheLength > 0
      && keys == Latest(put, cacheLength)
      && forall k :: k in cache ==> k in keys
    }

    /** What use only on a miss keeps: the live keys are the most recent ones, each once. */
    ghost predicate Exact()
      reads this
    {
      Valid() && NoRepeat(keys) && forall k :: k in cache <==> k in keys
    }

    constructor (cacheLength: nat)
      requires cacheLength > 0
      ensures Exact() && put == [] && cache == map[] && this.cacheLength == cacheLength
    {
      this.cacheLength, keys, cache, put := cacheLength, [], map[], [];
    }

    /** `cache(key, value)` */
    method Put(key: K, value: V)
      requires Valid()
      modifies this
      ensures Valid() && put == old(put) + [key]
      ensures key in cache && cache[key] == value
      ensures forall k :: k in cache && k != key ==> k in old(cache) && cache[k] == old(cache)[k]
      ensures forall k :: k in old(cache) && k !in cache ==> |old(keys)| >= cacheLength && k == old(keys)[0]
      ensures |old(keys)| >= cacheLength && old(keys)[0] != key ==> old(keys)[0] !in cache
      ensures old(Exact()) && key !in old(cache) ==> Exact()
    {
      LatestNext(put, cacheLength, key);
      ghost var before, live := keys, cache.Keys;
      keys := keys + [key];
      if |keys| > cacheLength {
        var oldest := keys[0];
        keys := keys[1..];
        cache := cache - {oldest};
        assert keys == before[1..] + [key] && oldest == before[0];
      }
      cache := cache[key := value];
      put := put + [key];
      LiveNext(before, live, keys, cache.Keys, key, cacheLength);
    }
  }

  /** Every live key is queued, and if the live keys were just the queue and a new one came, they still are. */
  lemma LiveNext<K>(before: seq<K>, live: set<K>, keys: seq<K>, now: set<K>, key: K, n: nat)
    requires 0 < n && |before| <= n && forall k :: k in live ==> k in before
    requires keys == if |before| < n then before + [key] else before[1..] + [key]
    requires now == (if |before| < n then live else live - {before[0]}) + {key}
    ensures forall k :: k in now ==> k in keys
    ensures NoRepeat(before) && (forall k :: k in before ==> k in live) && key !in live ==>
      NoRepeat(keys) && forall k :: k in now <==> k in keys
  {
    Kept(before, keys, key);
    if NoRepeat(before) && (forall k :: k in before ==> k in live) && key !in live {
      forall k | k in keys ensures k in now {
        assert k == key || (k in before && (|before| < n || k != before[0]));
      }
    }
  }

  /** The queue after a put: the old entries, perhaps without the first, and the new one. */
  lemma Kept<K>(before: seq<K>, keys: seq<K>, key: K)
    requires keys == before + [key] || (before != [] && keys == before[1..] + [key])
    ensures forall k :: k in keys <==> k == key || k in keys[..|keys| - 1]
    ensures forall k :: k in before ==> k in keys || k == before[0]
    ensures forall k :: k in keys ==> k == key || k in before
    ensures NoRepeat(before) && key !in before ==> NoRepeat(keys)
    ensures NoRepeat(before) && before != [] && keys == before[1..] + [key] && before[0] != key ==> before[0] !in keys
  {
    assert keys == keys[..|keys| - 1] + [key];
    forall k | k in before ensures k in keys || k == before[0] {
      var i :| 0 <= i < |before| && before[i] == k;
      if i > 0 && keys == before[1..] + [key] {
        assert keys[i - 1] == k;
      } else if keys == before + [key] {
        assert keys[i] == k;
      }
    }
  }

  /** A token array, shared by reference. */
  class Tokens<T> {
    var items: seq<T>

    constructor (items: seq<T>)
      ensures this.items == items
    {
      this.items := items;
    }
  }

  /** Token arrays with the contents `groups`. */
  ghost predicate Holds<T(!new)>(arrays: seq<Tokens<T>>, groups: seq<seq<T>>)
    reads arrays
  {
    |arrays| == |groups| && forall i :: 0 <= i < |arrays| ==> arrays[i].items == groups[i]
  }

  /** What the regular expressions make of a selector: its groups, and how much is left over. */
  datatype Lexed<T> = Lexed(groups: seq<seq<T>>, left: nat)

  /** tokenize and the beginning of select. */
  class Tokenizer<T(!new)> {
    const lex: string -> Lexed<T>
    const tokenCache: BoundedCache<string, seq<Tokens<T>>>

    ghost predicate Valid()
      reads this, tokenCache, set k, i | k in tokenCache.cache && 0 <= i < |tokenCache.cache[k]| ::
        tokenCache.cache[k][i]
    {
      tokenCache.Exact() && forall k :: k in tokenCache.cache ==>
        lex(k).left == 0 && Holds(tokenCache.cache[k], lex(k).groups)
    }

    constructor (lex: string -> Lexed<T>, cacheLength: nat)
      requires cacheLength > 0
      ensures Valid() && fresh(tokenCache) && this.lex == lex
    {
      this.lex := lex;
      tokenCache := new BoundedCache(cacheLength);
    }

    /** Whether or not the selector is cached, the result is what lexing it gives: its groups, or
        an error (None) if something is left over. */
    method Tokenize(selector: string) returns (groups: Option<seq<Tokens<T>>>)
      requires Valid()
      modifies tokenCache
      ensures Valid()
      ensures groups.Some? <==> lex(selector).left == 0
      ensures groups.Some? ==> Holds(groups.value, lex(selector).groups)
      ensures lex(selector).left > 0 ==> tokenCache.cache == old(tokenCache.cache)
      ensures groups.Some? ==> selector in tokenCache.cache && tokenCache.cache[selector] == groups.value
      ensures tokenCache.put
        == old(tokenCache.put) + if groups.Some? && selector !in old(tokenCache.cache) then [selector] else []
    {
      if selector in tokenCache.cache {
        return Some(tokenCache.cache[selector]);
      }
      var parsed := lex(selector);
      if parsed.left > 0 {
        return None;
      }
      var arrays := MakeArrays(parsed.groups);
      tokenCache.Put(selector, arrays);
      forall k | k in tokenCache.cache ensures lex(k).left == 0 && Holds(tokenCache.cache[k], lex(k).groups) {
        assert k != selector ==> k in old(tokenCache.cache);
      }
      groups := Some(arrays);
    }

    /** `tokenize(selector, true)`: how much would be left over; nothing is cached. */
    method ParseOnly(selector: string) returns (left: nat)
      requires Valid()
      ensures left == lex(selector).left
    {
      left := if selector in tokenCache.cache then 0 else lex(selector).left;
    }

    method MakeArrays(parsed: seq<seq<T>>) returns (arrays: seq<Tokens<T>>)
      ensures fresh(arrays) && Holds(arrays, parsed)
    {
      arrays := [];
      for i := 0 to |parsed|
        invariant fresh(arrays) && Holds(arrays, parsed[..i])
      {
        var tokens := new Tokens(parsed[i]);
        arrays := arrays + [tokens];
      }
      assert parsed[..|parsed|] == parsed;
    }

    /** The part of select that takes token `at` out of a single group: it does so in a
        copy, so the cache still holds the full token lists. */
    method TakeOut(selector: string, at: nat) returns (tokens: Option<Tokens<T>>)
      requires Valid()
      modifies tokenCache
      ensures Valid()
      ensures tokens.Some? <==> lex(selector).left == 0 && |lex(selector).groups| == 1 && at < |lex(selector).groups[0]|
      ensures tokens.Some? ==> fresh(tokens.value)
      ensures tokens.Some? ==> tokens.value.items == lex(selector).groups[0][..at] + lex(selector).groups[0][at + 1..]
    {
      var groups := Tokenize(selector);
      if groups.None? || |groups.value| != 1 || at >= |groups.value[0].items| {
        return None;
      }
      var copy := new Tokens(groups.value[0].items);
      copy.items := copy.items[..at] + copy.items[at + 1..];
      tokens := Some(copy);
    }
  }
}
