/** The per-key rate limiter: limiters kept in a bounded cache that drops the key used least
    recently. */
module RateLimiter {
  import opened Text
  import opened Buckets

  // ---- The cache on values: most recently used first ----

  function Lookup<V>(st: seq<(string, V)>, key: string): Option<V> {
    if st == [] then None else if st[0].0 == key then Some(st[0].1) else Lookup(st[1..], key)
  }

  function Drop<V>(st: seq<(string, V)>, key: string): seq<(string, V)> {
    if st == [] then []
    else if st[0].0 == key then Drop(st[1..], key)
    else [st[0]] + Drop(st[1..], key)
  }

  function Take<T>(s: seq<T>, n: nat): seq<T> {
    if |s| <= n then s else s[..n]
  }

  /** lru.Cache.Add and Get as one: the key comes first, the last one beyond the size goes. */
  function Use<V>(st: seq<(string, V)>, size: nat, key: string, v: V): seq<(string, V)> {
    Take([(key, v)] + Drop(st, key), size)
  }

  function Keys<V>(st: seq<(string, V)>): seq<string> {
    if st == [] then [] else [st[0].0] + Keys(st[1..])
  }

  /** Allow: a key not in the cache gets a new limiter. */
  function AllowStep(c: Config, size: nat, st: seq<(string, Bucket)>, key: string, now: real)
    : (bool, seq<(string, Bucket)>)
  {
    var found := Lookup(st, key);
    var (ok, next) := TryTake(c, if found.Some? then found.value else NewBucket(c), now);
    (ok, Use(st, size, key, next))
  }

  // ---- The cache and the limiters as objects ----

  class Cache {
    const size: nat
    var entries: seq<(string, Limiter)>

    constructor (size: nat)
      requires size > 0
      ensures this.size == size && entries == []
    {
      this.size := size;
      entries := [];
    }

    /** A hit moves the key to the front. */
    method Get(key: string) returns (found: Option<Limiter>)
      modifies this
      ensures found == Lookup(old(entries), key)
      ensures entries == if found.None? then old(entries) else [(key, found.value)] + Drop(old(entries), key)
    {
      found := Lookup(entries, key);
      if found.Some? {
        entries := [(key, found.value)] + Drop(entries, key);
      }
    }

    method Add(key: string, v: Limiter)
      modifies this
      ensures entries == Use(old(entries), size, key, v)
    {
      entries := Take([(key, v)] + Drop(entries, key), size);
    }
  }

  /** The address of a connection; over TCP the port does not count. */
  datatype Address = Tcp(ip: string, port: nat) | Other(text: string)

  function KeyOf(a: Address): string {
    if a.Tcp? then a.ip else a.text
  }

  /** Connections share a limiter over TCP exactly when they come from the same IP address, from
      whatever ports; other addresses count as a whole, and one whose text is an IP address is
      not told from it. */
  lemma SharedLimiters(ip: string, port: nat, ip': string, port': nat, text: string, text': string)
    ensures KeyOf(Tcp(ip, port)) == KeyOf(Tcp(ip', port')) <==> ip == ip'
    ensures KeyOf(Other(text)) == KeyOf(Other(text')) <==> text == text'
    ensures KeyOf(Tcp(ip, port)) == KeyOf(Other(text)) <==> ip == text
  {}

  function States(es: seq<(string, Limiter)>): seq<(string, Bucket)>
    reads set i | 0 <= i < |es| :: es[i].1
  {
    if es == [] then [] else [(es[0].0, es[0].1.bucket)] + States(es[1..])
  }

  lemma {:induction false} StatesMatch(es: seq<(string, Limiter)>, key: string)
    ensures Lookup(States(es), key).Some? <==> Lookup(es, key).Some?
    ensures Lookup(es, key).Some? ==> Lookup(States(es), key).value == Lookup(es, key).value.bucket
    ensures States(Drop(es, key)) == Drop(States(es), key) && |States(es)| == |es|
  {
    if es != [] {
      StatesMatch(es[1..], key);
      assert States(es)[1..] == States(es[1..]);
      assert ([es[0]] + Drop(es[1..], key))[1..] == Drop(es[1..], key);
    }
  }

  lemma {:induction false} StatesTake(es: seq<(string, Limiter)>, n: nat)
    ensures States(Take(es, n)) == Take(States(es), n)
    ensures |States(es)| == |es|
  {
    if es != [] {
      StatesTake(es[1..], if n == 0 then 0 else n - 1);
      if 0 < n < |es| {
        assert es[..n][1..] == es[1..][..n - 1];
      }
    }
  }

  predicate Distinct(es: seq<(string, Limiter)>) {
    forall i, j | 0 <= i < j < |es| :: es[i].0 != es[j].0 && es[i].1 != es[j].1
  }

  lemma {:induction false} DropMisses<V>(st: seq<(string, V)>, key: string)
    requires Lookup(st, key).None?
    ensures Drop(st, key) == st
  {
    if st != [] {
      DropMisses(st[1..], key);
    }
  }

  /** What is left after a key is dropped: the other entries, in order. */
  lemma {:induction false} DropAt(es: seq<(string, Limiter)>, key: string) returns (i: nat)
    requires Distinct(es) && Lookup(es, key).Some?
    ensures i < |es| && es[i] == (key, Lookup(es, key).value)
    ensures Drop(es, key) == es[..i] + es[i + 1..]
  {
    if es[0].0 == key {
      i := 0;
      NotLater(es);
      DropMisses(es[1..], key);
      assert es[..0] == [];
    } else {
      assert Distinct(es[1..]) by {
        assert forall j | 0 <= j < |es| - 1 :: es[1..][j] == es[j + 1];
      }
      var j := DropAt(es[1..], key);
      i := j + 1;
      assert es[..i] == [es[0]] + es[1..][..j];
    }
  }

  lemma NotLater(es: seq<(string, Limiter)>)
    requires es != [] && Distinct(es)
    ensures Lookup(es[1..], es[0].0).None?
  {
    assert forall j | 0 <= j < |es| - 1 :: es[1..][j] == es[j + 1] && es[j + 1].0 != es[0].0;
    if Lookup(es[1..], es[0].0).Some? {
      var j := FoundAt(es[1..], es[0].0);
    }
  }

  lemma {:induction false} FoundAt(es: seq<(string, Limiter)>, key: string) returns (j: nat)
    requires Lookup(es, key).Some?
    ensures j < |es| && es[j].0 == key
  {
    if es[0].0 == key {
      j := 0;
    } else {
      var k := FoundAt(es[1..], key);
      j := k + 1;
    }
  }

  lemma {:induction false} Missing(es: seq<(string, Limiter)>, key: string)
    requires Lookup(es, key).None?
    ensures forall j | 0 <= j < |es| :: es[j].0 != key
  {
    if es != [] {
      Missing(es[1..], key);
      assert forall j | 0 < j < |es| :: es[j] == es[1..][j - 1];
    }
  }

  predicate Configured(es: seq<(string, Limiter)>, config: Config) {
    forall i | 0 <= i < |es| :: es[i].1.config == config
  }

  lemma MovedToFront(es: seq<(string, Limiter)>, i: nat, config: Config)
    requires Distinct(es) && Configured(es, config) && i < |es|
    ensures var rest := es[..i] + es[i + 1..];
            && Distinct([es[i]] + rest) && Configured([es[i]] + rest, config)
            && forall j | 0 <= j < |rest| :: rest[j].1 != es[i].1
  {
    var rest := es[..i] + es[i + 1..];
    assert forall j | 0 <= j < |rest| :: rest[j] == es[if j < i then j else j + 1];
  }

  lemma PutInFront(es: seq<(string, Limiter)>, e: (string, Limiter), n: nat, config: Config)
    requires Distinct(es) && Configured(es, config) && e.1.config == config
    requires forall j | 0 <= j < |es| :: es[j].0 != e.0 && es[j].1 != e.1
    ensures Distinct(Take([e] + es, n)) && Configured(Take([e] + es, n), config)
  {
    var all := [e] + es;
    assert forall j | 0 < j < |all| :: all[j] == es[j - 1];
  }

  class Limiters {
    const config: Config
    const cache: Cache

    /** The limiters of the cache are different objects with the same configuration. */
    ghost predicate Valid()
      reads this, cache
    {
      && 0 < cache.size && |cache.entries| <= cache.size && Distinct(cache.entries)
      && Configured(cache.entries, config)
    }

    ghost function Owned(): set<object>
      reads this, cache
    {
      {cache} + set i | 0 <= i < |cache.entries| :: cache.entries[i].1
    }

    ghost function View(): seq<(string, Bucket)>
      reads this, cache, Owned()
    {
      States(cache.entries)
    }

    /** NewRateLimiter: a capacity below one is taken as one. */
    constructor (limit: Limit, burst: int, maxEntries: int)
      ensures Valid() && View() == [] && fresh(cache)
      ensures config == Config(limit, burst) && cache.size == if maxEntries <= 0 then 1 else maxEntries
    {
      config := Config(limit, burst);
      cache := new Cache(if maxEntries <= 0 then 1 else maxEntries);
    }

    method Allow(addr: Address, now: real) returns (ok: bool)
      requires Valid()
      modifies Owned()
      ensures Valid()
      ensures (ok, View()) == AllowStep(config, cache.size, old(View()), KeyOf(addr), now)
    {
      hide Lookup, Drop, Distinct, Configured, TryTake, States;
      var key := KeyOf(addr);
      ghost var before, states := cache.entries, View();
      StatesMatch(before, key);
      var found := cache.Get(key);
      if found.Some? {
        var limiter := found.value;
        ghost var i := DropAt(before, key);
        ghost var rest := Drop(before, key);
        MovedToFront(before, i, config);
        ConfiguredAt(before, i, config);
        assert limiter in old(Owned()) by {
          assert before[i].1 == limiter;
        }
        ok := limiter.Allow(now);
        StatesOfFront(limiter, key, rest);
      } else {
        Missing(before, key);
        DropMisses(before, key);
        DropMisses(states, key);
        var limiter := new Limiter(config);
        ok := limiter.Allow(now);
        cache.Add(key, limiter);
        PutInFront(before, (key, limiter), cache.size, config);
        StatesTake([(key, limiter)] + before, cache.size);
        StatesOfFront(limiter, key, before);
      }
    }
  }

  lemma ConfiguredAt(es: seq<(string, Limiter)>, i: nat, config: Config)
    requires Configured(es, config) && i < |es|
    ensures es[i].1.config == config
  {}

  lemma StatesOfFront(limiter: Limiter, key: string, rest: seq<(string, Limiter)>)
    ensures States([(key, limiter)] + rest) == [(key, limiter.bucket)] + States(rest)
    ensures |States(rest)| == |rest|
  {
    assert ([(key, limiter)] + rest)[1..] == rest;
    StatesTake(rest, 0);
  }
}
