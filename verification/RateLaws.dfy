/** The bounded cache against an unbounded map of limiters. */
module RateLaws {
  import opened Text
  import opened Buckets
  import opened RateLimiter

  datatype Request = Request(key: string, now: real)

  // ---- The two limiters over a run ----

  function CacheAfter(c: Config, size: nat, hist: seq<Request>): seq<(string, Bucket)> {
    if hist == [] then []
    else
      var last := hist[|hist| - 1];
      AllowStep(c, size, CacheAfter(c, size, hist[..|hist| - 1]), last.key, last.now).1
  }

  function CacheAllows(c: Config, size: nat, hist: seq<Request>, r: Request): bool {
    AllowStep(c, size, CacheAfter(c, size, hist), r.key, r.now).0
  }

  function BucketOf(c: Config, m: map<string, Bucket>, key: string): Bucket {
    if key in m then m[key] else NewBucket(c)
  }

  function MapAfter(c: Config, hist: seq<Request>): map<string, Bucket> {
    if hist == [] then map[]
    else
      var m, last := MapAfter(c, hist[..|hist| - 1]), hist[|hist| - 1];
      m[last.key := TryTake(c, BucketOf(c, m, last.key), last.now).1]
  }

  function MapAllows(c: Config, hist: seq<Request>, r: Request): bool {
    TryTake(c, BucketOf(c, MapAfter(c, hist), r.key), r.now).0
  }

  // ---- Recency ----

  predicate Seen(hist: seq<Request>, key: string) {
    exists i | 0 <= i < |hist| :: hist[i].key == key
  }

  /** The distinct keys requested after the last request of `key`. */
  function Since(hist: seq<Request>, key: string): set<string> {
    if hist == [] || hist[|hist| - 1].key == key then {}
    else Since(hist[..|hist| - 1], key) + {hist[|hist| - 1].key}
  }

  function Without(keys: seq<string>, key: string): seq<string> {
    if keys == [] then []
    else if keys[0] == key then Without(keys[1..], key)
    else [keys[0]] + Without(keys[1..], key)
  }

  /** The keys of a run, the one used last first. */
  function Recent(hist: seq<Request>): seq<string> {
    if hist == [] then []
    else [hist[|hist| - 1].key] + Without(Recent(hist[..|hist| - 1]), hist[|hist| - 1].key)
  }

  function Ahead(keys: seq<string>, key: string): seq<string> {
    if keys == [] || keys[0] == key then [] else [keys[0]] + Ahead(keys[1..], key)
  }

  function Elements(keys: seq<string>): set<string> {
    set k | k in keys
  }

  ghost predicate NoDuplicates(keys: seq<string>) {
    forall i, j | 0 <= i < j < |keys| :: keys[i] != keys[j]
  }

  lemma {:induction false} WithoutFacts(keys: seq<string>, key: string)
    ensures key !in Without(keys, key)
    ensures forall k :: k != key ==> (k in keys <==> k in Without(keys, key))
    ensures NoDuplicates(keys) ==> NoDuplicates(Without(keys, key))
    ensures key !in keys ==> Without(keys, key) == keys
    ensures |Without(keys, key)| <= |keys|
  {
    if keys != [] {
      WithoutFacts(keys[1..], key);
      assert keys == [keys[0]] + keys[1..];
      assert NoDuplicates(keys) ==> NoDuplicates(keys[1..]) && keys[0] !in keys[1..];
    }
  }

  lemma {:induction false} AheadFacts(keys: seq<string>, key: string)
    ensures Ahead(keys, key) <= keys && key !in Ahead(keys, key)
    ensures key in keys ==> |Ahead(keys, key)| < |keys| && keys[|Ahead(keys, key)|] == key
  {
    if keys != [] && keys[0] != key {
      AheadFacts(keys[1..], key);
      assert keys == [keys[0]] + keys[1..];
    }
  }

  lemma {:induction false} AheadWithout(keys: seq<string>, key: string, other: string)
    requires key != other
    ensures Ahead(Without(keys, other), key) == Without(Ahead(keys, key), other)
  {
    if keys != [] {
      AheadWithout(keys[1..], key, other);
      var rest := Without(keys[1..], other);
      assert ([keys[0]] + rest)[1..] == rest;
      var ahead := Ahead(keys[1..], key);
      assert ([keys[0]] + ahead)[1..] == ahead;
    }
  }

  lemma SeenSnoc(hist: seq<Request>, key: string)
    requires hist != []
    ensures Seen(hist, key) <==> Seen(hist[..|hist| - 1], key) || hist[|hist| - 1].key == key
  {
    var n := |hist| - 1;
    if Seen(hist[..n], key) {
      var i :| 0 <= i < n && hist[..n][i].key == key;
      assert hist[i].key == key;
    }
    if Seen(hist, key) {
      var i :| 0 <= i < |hist| && hist[i].key == key;
      assert i < n ==> hist[..n][i].key == key;
    }
  }

  lemma {:induction false} RecentKeys(hist: seq<Request>, key: string)
    ensures NoDuplicates(Recent(hist))
    ensures key in Recent(hist) <==> Seen(hist, key)
  {
    hide Seen, Without;
    if hist == [] {
      NotSeen(key);
    } else {
      var front, m := hist[..|hist| - 1], hist[|hist| - 1].key;
      RecentKeys(front, key);
      SeenSnoc(hist, key);
      WithoutFacts(Recent(front), m);
    }
  }

  lemma NotSeen(key: string)
    ensures !Seen([], key)
  {}

  lemma AheadCons(first: string, keys: seq<string>, key: string)
    ensures Ahead([first] + keys, key) == if first == key then [] else [first] + Ahead(keys, key)
  {
    assert ([first] + keys)[1..] == keys;
  }

  /** The keys ahead of one in the order of recency are those requested since. */
  lemma {:induction false} RecentAhead(hist: seq<Request>, key: string)
    requires Seen(hist, key)
    ensures Elements(Ahead(Recent(hist), key)) == Since(hist, key)
  {
    hide Seen, Without, Ahead;
    if hist == [] {
      NotSeen(key);
    } else {
      var front, m := hist[..|hist| - 1], hist[|hist| - 1].key;
      var r := Recent(front);
      SeenSnoc(hist, key);
      AheadCons(m, Without(r, m), key);
      if key != m {
        RecentAhead(front, key);
        AheadWithout(r, key, m);
        WithoutFacts(Ahead(r, key), m);
      }
    }
  }

  lemma {:induction false} CountElements(keys: seq<string>)
    requires NoDuplicates(keys)
    ensures |Elements(keys)| == |keys|
  {
    if keys != [] {
      CountElements(keys[1..]);
      assert Elements(keys) == {keys[0]} + Elements(keys[1..]) by {
        assert keys == [keys[0]] + keys[1..];
      }
      assert keys[0] !in Elements(keys[1..]);
    }
  }

  lemma PlaceIsSince(hist: seq<Request>, key: string)
    requires Seen(hist, key)
    ensures |Ahead(Recent(hist), key)| == |Since(hist, key)|
  {
    RecentKeys(hist, key);
    RecentAhead(hist, key);
    var ahead := Ahead(Recent(hist), key);
    AheadFacts(Recent(hist), key);
    assert NoDuplicates(ahead) by {
      assert forall i | 0 <= i < |ahead| :: ahead[i] == Recent(hist)[i];
    }
    CountElements(ahead);
  }

  // ---- What the cache holds ----

  lemma {:induction false} KeysFacts<V>(st: seq<(string, V)>, key: string)
    ensures |Keys(st)| == |st|
    ensures Keys(Drop(st, key)) == Without(Keys(st), key)
    ensures Lookup(st, key).Some? <==> key in Keys(st)
  {
    if st != [] {
      KeysFacts(st[1..], key);
      assert Keys(st)[1..] == Keys(st[1..]);
      var rest := Drop(st[1..], key);
      assert ([st[0]] + rest)[1..] == rest;
    }
  }

  lemma {:induction false} KeysTake<V>(st: seq<(string, V)>, n: nat)
    ensures Keys(Take(st, n)) == Take(Keys(st), n)
    ensures |Keys(st)| == |st|
  {
    if st != [] {
      KeysTake(st[1..], if n == 0 then 0 else n - 1);
      if 0 < n < |st| {
        assert st[..n][1..] == st[1..][..n - 1];
      }
    }
  }

  lemma TakeCons(key: string, keys: seq<string>, size: nat)
    requires size > 0
    ensures Take([key] + keys, size) == [key] + Take(keys, size - 1)
  {}

  lemma WithoutCons(first: string, keys: seq<string>, key: string)
    ensures Without([first] + keys, key) == if first == key then Without(keys, key) else [first] + Without(keys, key)
  {
    assert ([first] + keys)[1..] == keys;
  }

  lemma TakeNone(keys: seq<string>)
    ensures Take(keys, 0) == []
  {}

  lemma TakeSubset(keys: seq<string>, n: nat, key: string)
    ensures key in Take(keys, n) ==> key in keys
  {}

  /** Taking first and dropping a key, or the other way round, agree on what still fits. */
  lemma {:induction false} TakeWithout(keys: seq<string>, n: nat, key: string)
    requires NoDuplicates(keys)
    ensures key in Take(keys, n + 1) ==> Without(Take(keys, n + 1), key) == Take(Without(keys, key), n)
    ensures key !in Take(keys, n + 1) ==> Take(Take(keys, n + 1), n) == Take(Without(keys, key), n)
    decreases |keys|
  {
    if keys != [] {
      hide Take, Without;
      var first, rest := keys[0], keys[1..];
      assert keys == [first] + rest;
      assert first !in rest && NoDuplicates(rest);
      TakeCons(first, rest, n + 1);
      WithoutCons(first, rest, key);
      WithoutCons(first, Take(rest, n), key);
      if first == key {
        TakeSubset(rest, n, key);
        WithoutFacts(rest, key);
        WithoutFacts(Take(rest, n), key);
      } else if n > 0 {
        TakeWithout(rest, n - 1, key);
        TakeCons(first, Take(rest, n), n);
        TakeCons(first, Without(rest, key), n);
      } else {
        TakeNone(rest);
        TakeNone(Take(keys, 1));
        TakeNone(Without(keys, key));
      }
    }
  }

  lemma UsedKeys<V>(st: seq<(string, V)>, size: nat, key: string, v: V)
    requires size > 0
    ensures Keys(Use(st, size, key, v)) == [key] + Take(Without(Keys(st), key), size - 1)
    ensures |Use(st, size, key, v)| <= size
  {
    hide Drop, Without;
    KeysTake([(key, v)] + Drop(st, key), size);
    assert ([(key, v)] + Drop(st, key))[1..] == Drop(st, key);
    KeysFacts(st, key);
    TakeCons(key, Without(Keys(st), key), size);
  }

  lemma TakeTwice(keys: seq<string>, n: nat)
    ensures |keys| <= n ==> Take(keys, n) == keys
    ensures |Take(keys, n)| <= n
  {}

  lemma TakeAround(keys: seq<string>, n: nat, key: string)
    requires NoDuplicates(keys)
    ensures Take(Without(Take(keys, n + 1), key), n) == Take(Without(keys, key), n)
  {
    hide Take, Without;
    TakeWithout(keys, n, key);
    TakeTwice(Without(keys, key), n);
    TakeTwice(Take(Without(keys, key), n), n);
    WithoutFacts(Take(keys, n + 1), key);
  }

  /** The cache always holds the keys used last, in order, as many as fit. */
  lemma {:induction false} CacheHoldsRecent(c: Config, size: nat, hist: seq<Request>)
    requires size > 0
    ensures Keys(CacheAfter(c, size, hist)) == Take(Recent(hist), size)
    ensures |CacheAfter(c, size, hist)| <= size
  {
    hide Take, Without, Use, Lookup, TryTake;
    if hist == [] {
      TakeTwice([], size);
    } else {
      var front, last := hist[..|hist| - 1], hist[|hist| - 1];
      var st, r := CacheAfter(c, size, front), Recent(front);
      CacheHoldsRecent(c, size, front);
      RecentKeys(front, last.key);
      var found := Lookup(st, last.key);
      UsedKeys(st, size, last.key, TryTake(c, if found.Some? then found.value else NewBucket(c), last.now).1);
      TakeAround(r, size - 1, last.key);
      TakeCons(last.key, Without(r, last.key), size);
    }
  }

  /** A key is in the cache exactly when it was requested and fewer other keys than fit were
      requested since. */
  lemma CachedCondition(c: Config, size: nat, hist: seq<Request>, key: string)
    requires size > 0
    ensures Lookup(CacheAfter(c, size, hist), key).Some? <==> Seen(hist, key) && |Since(hist, key)| < size
  {
    CacheHoldsRecent(c, size, hist);
    KeysFacts(CacheAfter(c, size, hist), key);
    RecentKeys(hist, key);
    var r := Recent(hist);
    AheadFacts(r, key);
    if Seen(hist, key) {
      PlaceIsSince(hist, key);
      var n := |Ahead(r, key)|;
      if n < size {
        assert Take(r, size)[n] == key;
      } else {
        assert forall i | 0 <= i < size :: Take(r, size)[i] == Ahead(r, key)[i];
      }
    } else {
      assert forall i | 0 <= i < |Take(r, size)| :: Take(r, size)[i] == r[i];
    }
  }

  lemma {:induction false} LookupDrop<V>(st: seq<(string, V)>, key: string, other: string)
    requires key != other
    ensures Lookup(Drop(st, other), key) == Lookup(st, key)
  {
    if st != [] {
      LookupDrop(st[1..], key, other);
      var rest := Drop(st[1..], other);
      assert ([st[0]] + rest)[1..] == rest;
    }
  }

  lemma {:induction false} LookupTake<V>(st: seq<(string, V)>, key: string, n: nat)
    requires Lookup(Take(st, n), key).Some?
    ensures Lookup(Take(st, n), key) == Lookup(st, key)
  {
    if st != [] && n > 0 {
      if |st| > n {
        assert st[..n][1..] == st[1..][..n - 1];
      }
      if st[0].0 != key {
        assert Take(st, n)[1..] == Take(st[1..], n - 1);
        LookupTake(st[1..], key, n - 1);
      }
    }
  }

  // ---- Refinement ----

  /** The unbounded map, except that a limiter not used while `size` other keys came by is
      forgotten. */
  function Remembered(c: Config, size: nat, hist: seq<Request>, key: string): Option<Bucket> {
    if hist == [] then None
    else
      var front, last := hist[..|hist| - 1], hist[|hist| - 1];
      var before := Remembered(c, size, front, key);
      if last.key == key then
        Some(TryTake(c, if before.Some? then before.value else NewBucket(c), last.now).1)
      else if |Since(hist, key)| < size then before
      else None
  }

  /** For every run and every key the cache holds exactly what is remembered. */
  lemma {:induction false} CacheRemembers(c: Config, size: nat, hist: seq<Request>, key: string)
    requires size > 0
    ensures Lookup(CacheAfter(c, size, hist), key) == Remembered(c, size, hist, key)
  {
    if hist != [] {
      var front, last := hist[..|hist| - 1], hist[|hist| - 1];
      var st := CacheAfter(c, size, front);
      CacheRemembers(c, size, front, key);
      CachedCondition(c, size, hist, key);
      CachedCondition(c, size, front, key);
      SeenSnoc(hist, key);
      var found := Lookup(st, last.key);
      var next := TryTake(c, if found.Some? then found.value else NewBucket(c), last.now).1;
      var all := [(last.key, next)] + Drop(st, last.key);
      assert all[1..] == Drop(st, last.key);
      if Lookup(Take(all, size), key).Some? {
        LookupTake(all, key, size);
      }
      if last.key != key {
        LookupDrop(st, key, last.key);
      }
    }
  }

  /** Between any two consecutive requests of the key, fewer than `size` other keys came by. */
  predicate Steady(size: nat, hist: seq<Request>, key: string) {
    forall i | 0 <= i < |hist| && hist[i].key == key && Seen(hist[..i], key) ::
      |Since(hist[..i], key)| < size
  }

  lemma SteadyFront(size: nat, hist: seq<Request>, key: string)
    requires hist != [] && Steady(size, hist, key)
    ensures Steady(size, hist[..|hist| - 1], key)
    ensures hist[|hist| - 1].key == key && Seen(hist[..|hist| - 1], key) ==> |Since(hist[..|hist| - 1], key)| < size
  {
    var front := hist[..|hist| - 1];
    forall i | 0 <= i < |front| && front[i].key == key && Seen(front[..i], key)
      ensures |Since(front[..i], key)| < size
    {
      assert front[..i] == hist[..i] && front[i] == hist[i];
    }
  }

  lemma SinceGrows(hist: seq<Request>, key: string)
    requires hist != [] && hist[|hist| - 1].key != key
    ensures |Since(hist[..|hist| - 1], key)| <= |Since(hist, key)|
  {
    SubsetSize(Since(hist[..|hist| - 1], key), Since(hist, key));
  }

  lemma {:induction false} SubsetSize<T>(a: set<T>, b: set<T>)
    requires a <= b
    ensures |a| <= |b|
  {
    if a != {} {
      var x :| x in a;
      SubsetSize(a - {x}, b - {x});
    }
  }

  lemma {:induction false} SteadyIsMap(c: Config, size: nat, hist: seq<Request>, key: string)
    requires size > 0 && Steady(size, hist, key)
    ensures key in MapAfter(c, hist) <==> Seen(hist, key)
    ensures Seen(hist, key) && |Since(hist, key)| < size ==>
              Remembered(c, size, hist, key) == Some(MapAfter(c, hist)[key])
    ensures !Seen(hist, key) ==> Remembered(c, size, hist, key) == None
  {
    if hist != [] {
      SteadyFront(size, hist, key);
      SteadyIsMap(c, size, hist[..|hist| - 1], key);
      SeenSnoc(hist, key);
      if hist[|hist| - 1].key != key {
        SinceGrows(hist, key);
      }
    }
  }

  /** As long as fewer than `size` distinct other keys come between consecutive requests of a
      key, each of its requests is decided as by an unbounded map of limiters. */
  lemma CacheRefinesMap(c: Config, size: nat, hist: seq<Request>, r: Request)
    requires size > 0 && Steady(size, hist + [r], r.key)
    ensures CacheAllows(c, size, hist, r) == MapAllows(c, hist, r)
  {
    var all := hist + [r];
    assert all[..|hist|] == hist;
    SteadyFront(size, all, r.key);
    SteadyIsMap(c, size, hist, r.key);
    CacheRemembers(c, size, hist, r.key);
  }

  // ---- What the whole limiter promises a key ----

  function TimesOf(hist: seq<Request>, key: string): seq<real> {
    if hist == [] then []
    else
      TimesOf(hist[..|hist| - 1], key)
      + if hist[|hist| - 1].key == key then [hist[|hist| - 1].now] else []
  }

  function AllowedCount(c: Config, size: nat, hist: seq<Request>, key: string): nat {
    if hist == [] then 0
    else
      var front, last := hist[..|hist| - 1], hist[|hist| - 1];
      AllowedCount(c, size, front, key)
      + if last.key == key && CacheAllows(c, size, front, last) then 1 else 0
  }

  lemma {:induction false} CountsAgree(c: Config, size: nat, hist: seq<Request>, key: string)
    requires size > 0 && Steady(size, hist, key)
    ensures AllowedCount(c, size, hist, key) == CountAllowed(c, NewBucket(c), TimesOf(hist, key))
    ensures BucketOf(c, MapAfter(c, hist), key) == AfterTimes(c, NewBucket(c), TimesOf(hist, key))
  {
    if hist != [] {
      var front, last := hist[..|hist| - 1], hist[|hist| - 1];
      SteadyFront(size, hist, key);
      CountsAgree(c, size, front, key);
      if last.key == key {
        assert front + [last] == hist;
        CacheRefinesMap(c, size, front, last);
        assert TimesOf(hist, key)[..|TimesOf(front, key)|] == TimesOf(front, key);
      } else {
        assert TimesOf(hist, key) == TimesOf(front, key);
      }
    }
  }

  /** A key that is not crowded out is allowed at most its burst and what the rate gives for the
      time between its first and its last request. */
  lemma KeyIsLimited(c: Config, size: nat, hist: seq<Request>, key: string)
    requires size > 0 && Steady(size, hist, key)
    requires c.limit.PerSecond? && c.limit.rate >= 0.0 && c.burst >= 0
    requires var times := TimesOf(hist, key); times != [] && NonDecreasing(times) && times[0] >= 0.0
    ensures var times := TimesOf(hist, key);
            AllowedCount(c, size, hist, key) as real
            <= Allowance(c, times[0], times[|times| - 1])
  {
    hide Allowance, AllowedCount, CountAllowed, Steady, TimesOf, NonDecreasing;
    CountsAgree(c, size, hist, key);
    BurstAndRate(c, TimesOf(hist, key));
  }

  /** Such a key is never refused its first requests, as many as its burst. */
  lemma KeyIsServed(c: Config, size: nat, hist: seq<Request>, key: string)
    requires size > 0 && Steady(size, hist, key)
    requires c.limit.PerSecond? && c.limit.rate >= 0.0 && |TimesOf(hist, key)| <= c.burst
    ensures AllowedCount(c, size, hist, key) == |TimesOf(hist, key)|
  {
    CountsAgree(c, size, hist, key);
    BurstPasses(c, TimesOf(hist, key));
  }

  // ---- Every decision ----

  /** The times of the key's requests since its limiter was last forgotten. */
  function Live(size: nat, hist: seq<Request>, key: string): seq<real> {
    if hist == [] then []
    else
      var before, last := Live(size, hist[..|hist| - 1], key), hist[|hist| - 1];
      if last.key == key then before + [last.now]
      else if |Since(hist, key)| < size then before
      else []
  }

  lemma {:induction false} RememberedIsLive(c: Config, size: nat, hist: seq<Request>, key: string)
    ensures Remembered(c, size, hist, key) ==
            if Live(size, hist, key) == [] then None
            else Some(AfterTimes(c, NewBucket(c), Live(size, hist, key)))
  {
    hide TryTake;
    if hist != [] {
      var before, last := Live(size, hist[..|hist| - 1], key), hist[|hist| - 1];
      RememberedIsLive(c, size, hist[..|hist| - 1], key);
      assert (before + [last.now])[..|before|] == before;
    }
  }

  /** Every decision of every run: a request is let through if and only if one more is covered by
      the burst and what the rate has given, counted from each request of the same key that was
      let through since the key was last forgotten. */
  lemma DecidedExactly(c: Config, size: nat, hist: seq<Request>, r: Request)
    requires size > 0 && c.limit.PerSecond? && c.limit.rate >= 0.0
    ensures var passed := Passed(c, Live(size, hist, r.key));
            CacheAllows(c, size, hist, r) <==> forall i | 0 <= i <= |passed| :: Covered(c, passed, r.now, i)
  {
    hide TryTake, Covered, CacheAfter, Live;
    CacheRemembers(c, size, hist, r.key);
    RememberedIsLive(c, size, hist, r.key);
    AllowedExactly(c, Live(size, hist, r.key), r.now);
  }

  /** Without a limit no request is refused. */
  lemma UnlimitedAllows(c: Config, size: nat, hist: seq<Request>, r: Request)
    requires c.limit.Unlimited?
    ensures CacheAllows(c, size, hist, r)
  {}
}
