/** The server's cache of sessions: a dictionary beside a circular list of identifiers with times. */
module SessionCaches {
  import opened Results
  import opened ByteStrings

  datatype Entry = Entry(id: Bytes, time: real)

  /** The dictionary, the entries in use of the circular list, oldest first, and its size. */
  datatype Cache<S> = Cache(dict: map<Bytes, S>, window: seq<Entry>, size: nat, maxAge: real)

  /** The result of an operation together with the cache it leaves behind. */
  datatype Changed<S> = Changed(res: Result<()>, cache: Cache<S>)

  predicate Expired(e: Entry, maxAge: real, now: real) {
    now - e.time > maxAge
  }

  function Without<S>(dict: map<Bytes, S>, id: Bytes): map<Bytes, S> {
    map k | k in dict && k != id :: dict[k]
  }

  /** Delete expired entries from the dictionary; how many, or the failure of a deletion. */
  function Expire<S>(dict: map<Bytes, S>, window: seq<Entry>, maxAge: real, now: real): (Result<nat>, map<Bytes, S>)
    decreases |window|
  {
    if window == [] || !Expired(window[0], maxAge, now) then (Ok(0), dict)
    else if window[0].id !in dict then (Err(KeyError), dict)
    else
      var (r, dict') := Expire(Without(dict, window[0].id), window[1..], maxAge, now);
      (if r.Ok? then Ok(r.value + 1) else r, dict')
  }

  /** _purge: the list moves on only if every deletion succeeded. */
  function Purge<S>(cache: Cache<S>, now: real): Changed<S> {
    ExpireBounded(cache.dict, cache.window, cache.maxAge, now);
    var (r, dict) := Expire(cache.dict, cache.window, cache.maxAge, now);
    match r
    case Err(e) => Changed(Err(e), cache.(dict := dict))
    case Ok(n) => Changed(Ok(()), cache.(dict := dict, window := cache.window[n..]))
  }

  /** __setitem__: when the list is full its oldest entry makes room; should that one be missing from the
      dictionary, the two indices are left equal and the list reads as empty. */
  function SetItem<S>(cache: Cache<S>, id: Bytes, session: S, now: real): Changed<S> {
    var dict := cache.dict[id := session];
    if cache.size == 0 then Changed(Err(IndexError), cache.(dict := dict))
    else
      var window := cache.window + [Entry(id, now)];
      if |window| < cache.size then Changed(Ok(()), cache.(dict := dict, window := window))
      else if window[0].id !in dict then Changed(Err(KeyError), cache.(dict := dict, window := []))
      else Changed(Ok(()), cache.(dict := Without(dict, window[0].id), window := window[1..]))
  }

  lemma {:induction false} ExpireBounded<S>(dict: map<Bytes, S>, window: seq<Entry>, maxAge: real, now: real)
    ensures var r := Expire(dict, window, maxAge, now).0; r.Ok? ==> r.value <= |window|
    decreases |window|
  {
    if window != [] && Expired(window[0], maxAge, now) && window[0].id in dict {
      ExpireBounded(Without(dict, window[0].id), window[1..], maxAge, now);
    }
  }

  //
  // When internal deletions cannot fail
  //

  predicate Distinct(window: seq<Entry>) {
    forall i, j :: 0 <= i < j < |window| ==> window[i].id != window[j].id
  }

  /** No two entries share an identifier, and each is in the dictionary. */
  predicate Covered<S>(dict: map<Bytes, S>, window: seq<Entry>) {
    Distinct(window) && forall i :: 0 <= i < |window| ==> window[i].id in dict
  }

  /** Dictionary and list hold the same identifiers, and a slot of the list stays free. */
  ghost predicate Consistent<S>(cache: Cache<S>) {
    Exact(cache.dict, cache.window) && |cache.window| < cache.size
  }

  /** Covered, and no other identifier is in the dictionary. */
  ghost predicate Exact<S>(dict: map<Bytes, S>, window: seq<Entry>) {
    Covered(dict, window) && forall id :: id in dict ==> Holds(window, id)
  }

  predicate Holds(window: seq<Entry>, id: Bytes) {
    exists i :: 0 <= i < |window| && window[i].id == id
  }

  /** No purge fails, whenever it comes. */
  ghost predicate Safe<S>(cache: Cache<S>) {
    forall now: real :: Purge(cache, now).res.Ok?
  }

  lemma CoveredRest<S>(dict: map<Bytes, S>, window: seq<Entry>)
    requires window != [] && Covered(dict, window)
    ensures Covered(Without(dict, window[0].id), window[1..])
  {
    var rest := window[1..];
    forall i | 0 <= i < |rest| ensures rest[i].id in Without(dict, window[0].id) {
      assert window[i + 1].id != window[0].id;
    }
  }

  lemma {:induction false} CoveredExpires<S>(dict: map<Bytes, S>, window: seq<Entry>, maxAge: real, now: real)
    requires Covered(dict, window)
    ensures Expire(dict, window, maxAge, now).0.Ok?
    decreases |window|
  {
    if window != [] && Expired(window[0], maxAge, now) {
      CoveredRest(dict, window);
      CoveredExpires(Without(dict, window[0].id), window[1..], maxAge, now);
    }
  }

  lemma {:induction false} ExpiresCovered<S>(dict: map<Bytes, S>, window: seq<Entry>, maxAge: real, now: real)
    requires forall i :: 0 <= i < |window| ==> Expired(window[i], maxAge, now)
    requires Expire(dict, window, maxAge, now).0.Ok?
    ensures Covered(dict, window)
    decreases |window|
  {
    if window != [] {
      var rest, dict' := window[1..], Without(dict, window[0].id);
      ExpiresCovered(dict', rest, maxAge, now);
      forall i, j | 0 <= i < j < |window| ensures window[i].id != window[j].id {
        assert window[j] == rest[j - 1] && rest[j - 1].id in dict';
        if i > 0 { assert window[i] == rest[i - 1]; }
      }
      forall i | 0 <= i < |window| ensures window[i].id in dict {
        if i > 0 { assert window[i] == rest[i - 1]; }
      }
    }
  }

  /** A time by which everything in the list has expired. */
  function {:induction false} AfterAll(window: seq<Entry>, maxAge: real): (now: real)
    ensures forall i :: 0 <= i < |window| ==> Expired(window[i], maxAge, now)
    decreases |window|
  {
    if window == [] then 0.0
    else
      var later := AfterAll(window[1..], maxAge);
      var mine := window[0].time + maxAge + 1.0;
      assert forall i :: 1 <= i < |window| ==> window[i] == window[1..][i - 1];
      if later < mine then mine else later
  }

  /** Purging can never fail exactly when the entries are distinct and all in the dictionary. */
  lemma SafeIffCovered<S>(cache: Cache<S>)
    ensures Safe(cache) <==> Covered(cache.dict, cache.window)
  {
    if Covered(cache.dict, cache.window) {
      forall now: real ensures Purge(cache, now).res.Ok? {
        CoveredExpires(cache.dict, cache.window, cache.maxAge, now);
        ExpireBounded(cache.dict, cache.window, cache.maxAge, now);
      }
    }
    if Safe(cache) {
      var now := AfterAll(cache.window, cache.maxAge);
      assert Purge(cache, now).res.Ok?;
      ExpiresCovered(cache.dict, cache.window, cache.maxAge, now);
    }
  }

  /** An insertion keeps a consistent cache consistent exactly when the identifier is not in the list any
      more; otherwise some later purge fails. */
  lemma InsertSafeIffFresh<S>(cache: Cache<S>, id: Bytes, session: S, now: real)
    requires Consistent(cache)
    ensures var c := SetItem(cache, id, session, now);
            && c.res.Ok?
            && (Consistent(c.cache) <==> cache.size == 1 || !Holds(cache.window, id))
            && (Safe(c.cache) <==> cache.size == 1 || !Holds(cache.window, id))
  {
    var c := SetItem(cache, id, session, now);
    SafeIffCovered(c.cache);
    var window := cache.window + [Entry(id, now)];
    var last := |window| - 1;
    if cache.size == 1 {
      assert window[1..] == [];
    } else if Holds(cache.window, id) {
      var i :| 0 <= i < |cache.window| && cache.window[i].id == id;
      assert window[i].id == window[last].id;
      if |window| == cache.size && i > 0 {
        assert window[1..][i - 1].id == window[1..][last - 1].id;
      } else if |window| == cache.size {
        assert window[1..][last - 1].id == id;
      }
    } else {
      InsertFresh(cache, id, session, now);
    }
  }

  lemma InsertFresh<S>(cache: Cache<S>, id: Bytes, session: S, now: real)
    requires Consistent(cache) && !Holds(cache.window, id)
    ensures Consistent(SetItem(cache, id, session, now).cache)
  {
    var dict, window := cache.dict[id := session], cache.window + [Entry(id, now)];
    assert Distinct(window);
    assert Covered(dict, window);
    forall k | k in dict ensures Holds(window, k) {
      if k == id {
        assert window[|window| - 1].id == k;
      } else {
        assert Holds(cache.window, k);
        var i :| 0 <= i < |cache.window| && cache.window[i].id == k;
        assert window[i].id == k;
      }
    }
    if |window| == cache.size {
      CoveredRest(dict, window);
      AllHeldRest(dict, window);
    }
  }

  lemma AllHeldRest<S>(dict: map<Bytes, S>, window: seq<Entry>)
    requires window != [] && forall k :: k in dict ==> Holds(window, k)
    ensures forall k :: k in Without(dict, window[0].id) ==> Holds(window[1..], k)
  {
    forall k | k in Without(dict, window[0].id) ensures Holds(window[1..], k) {
      assert Holds(window, k);
      var i :| 0 <= i < |window| && window[i].id == k;
      assert window[1..][i - 1].id == k;
    }
  }

  /** The failing family is not empty: the same session stored twice, and a purge after both have expired. */
  lemma StoringTwiceFails()
    ensures var empty: Cache<nat> := Cache(map[], [], 3, 10.0);
            var once := SetItem(empty, [1], 7, 0.0).cache;
            var twice := SetItem(once, [1], 7, 1.0).cache;
            Consistent(once) && Purge(twice, 20.0).res == Err(KeyError)
  {
    var empty: Cache<nat> := Cache(map[], [], 3, 10.0);
    InsertFresh(empty, [1], 7, 0.0);
    hide Consistent, Covered, Holds, Exact, Expire;
    var once := SetItem(empty, [1], 7, 0.0).cache;
    var twice := SetItem(once, [1], 7, 1.0).cache;
    assert once.window == [Entry([1], 0.0)];
    assert twice.window == [Entry([1], 0.0), Entry([1], 1.0)];
    TwiceExpires(twice.dict, [1], 0.0, 1.0, 10.0, 20.0);
  }

  lemma TwiceExpires<S>(dict: map<Bytes, S>, id: Bytes, first: real, second: real, maxAge: real, now: real)
    requires id in dict && now - first > maxAge && now - second > maxAge
    ensures Expire(dict, [Entry(id, first), Entry(id, second)], maxAge, now).0 == Err(KeyError)
  {
    var window := [Entry(id, first), Entry(id, second)];
    assert window[1..] == [Entry(id, second)];
  }

  //
  // The cache as an ordered list of sessions with ages
  //

  datatype Item<S> = Item(id: Bytes, session: S, time: real)

  /** The sessions in the order of their insertion. */
  function Listed<S>(dict: map<Bytes, S>, window: seq<Entry>): (items: seq<Item<S>>)
    requires forall i :: 0 <= i < |window| ==> window[i].id in dict
  {
    seq(|window|, i requires 0 <= i < |window| => Item(window[i].id, dict[window[i].id], window[i].time))
  }

  /** The items that are not too old. */
  function Young<S>(items: seq<Item<S>>, maxAge: real, now: real): seq<Item<S>> {
    if items == [] then []
    else if now - items[0].time > maxAge then Young(items[1..], maxAge, now)
    else [items[0]] + Young(items[1..], maxAge, now)
  }

  /** Times do not decrease along the list, nor beyond now. */
  predicate InOrder(window: seq<Entry>, now: real) {
    && (forall i, j :: 0 <= i < j < |window| ==> window[i].time <= window[j].time)
    && (forall i :: 0 <= i < |window| ==> window[i].time <= now)
  }

  lemma {:induction false} AllYoung<S>(items: seq<Item<S>>, maxAge: real, now: real)
    requires forall i :: 0 <= i < |items| ==> now - items[i].time <= maxAge
    ensures Young(items, maxAge, now) == items
  {
    if items != [] {
      AllYoung(items[1..], maxAge, now);
    }
  }

  lemma ListedRest<S>(dict: map<Bytes, S>, window: seq<Entry>)
    requires window != [] && Covered(dict, window)
    ensures Covered(Without(dict, window[0].id), window[1..])
    ensures Listed(dict, window)[1..] == Listed(Without(dict, window[0].id), window[1..])
  {
    CoveredRest(dict, window);
  }

  lemma AllListedYoung<S>(dict: map<Bytes, S>, window: seq<Entry>, maxAge: real, now: real)
    requires Covered(dict, window) && InOrder(window, now) && window != [] && !Expired(window[0], maxAge, now)
    ensures Young(Listed(dict, window), maxAge, now) == Listed(dict, window)
  {
    var items := Listed(dict, window);
    forall i | 0 <= i < |items| ensures now - items[i].time <= maxAge {
      assert i > 0 ==> window[0].time <= window[i].time;
    }
    AllYoung(items, maxAge, now);
  }

  lemma NothingListed<S>(dict: map<Bytes, S>, maxAge: real, now: real)
    ensures Young(Listed(dict, []), maxAge, now) == Listed(dict, [])
  {
  }

  lemma ExpireOne<S>(dict: map<Bytes, S>, window: seq<Entry>, maxAge: real, now: real)
    requires Exact(dict, window) && InOrder(window, now) && window != [] && Expired(window[0], maxAge, now)
    ensures window[0].id in dict && InOrder(window[1..], now) && Exact(Without(dict, window[0].id), window[1..])
    ensures Covered(dict, window) && Covered(Without(dict, window[0].id), window[1..])
    ensures Young(Listed(dict, window), maxAge, now) == Young(Listed(Without(dict, window[0].id), window[1..]), maxAge, now)
  {
    ListedRest(dict, window);
    AllHeldRest(dict, window);
  }

  /** What expiring leaves: the young items, covered, and nothing else in the dictionary. */
  lemma {:induction false} ExpireLeaves<S>(dict: map<Bytes, S>, window: seq<Entry>, maxAge: real, now: real)
    requires Exact(dict, window) && InOrder(window, now)
    ensures var (r, dict') := Expire(dict, window, maxAge, now);
            && r.Ok? && r.value <= |window| && Exact(dict', window[r.value..])
            && Listed(dict', window[r.value..]) == Young(Listed(dict, window), maxAge, now)
    decreases |window|
  {
    assert Covered(dict, window);
    hide Exact, InOrder, Covered, Without, Holds, Young, Listed;
    assert window[0..] == window;
    if window == [] {
      NothingListed(dict, maxAge, now);
    } else if Expired(window[0], maxAge, now) {
      ExpireOne(dict, window, maxAge, now);
      ExpireLeaves(Without(dict, window[0].id), window[1..], maxAge, now);
      var n := Expire(Without(dict, window[0].id), window[1..], maxAge, now).0.value;
      assert window[1..][n..] == window[n + 1..];
    } else {
      AllListedYoung(dict, window, maxAge, now);
    }
  }

  datatype Op<S> = Set(id: Bytes, session: S, now: real) | Get(id: Bytes, now: real)

  /** An operation on the cache: an internal failure, or what a lookup finds. */
  function Step<S>(cache: Cache<S>, op: Op<S>): (Result<Option<S>>, Cache<S>) {
    match op
    case Set(id, session, now) =>
      var c := SetItem(cache, id, session, now);
      (if c.res.Ok? then Ok(None) else Err(c.res.error), c.cache)
    case Get(id, now) =>
      var c := Purge(cache, now);
      (if c.res.Err? then Err(c.res.error) else Ok(Lookup(c.cache.dict, id)), c.cache)
  }

  function Lookup<S>(dict: map<Bytes, S>, id: Bytes): Option<S> {
    if id in dict then Some(dict[id]) else None
  }

  /** The same operation on the ordered list. */
  function ListStep<S>(items: seq<Item<S>>, size: nat, maxAge: real, op: Op<S>): (Option<S>, seq<Item<S>>) {
    match op
    case Set(id, session, now) =>
      var all := items + [Item(id, session, now)];
      (None, if |all| < size then all else all[1..])
    case Get(id, now) =>
      var young := Young(items, maxAge, now);
      (Find(young, id), young)
  }

  function Find<S>(items: seq<Item<S>>, id: Bytes): Option<S> {
    if items == [] then None else if items[0].id == id then Some(items[0].session) else Find(items[1..], id)
  }

  lemma {:induction false} FindListed<S>(dict: map<Bytes, S>, window: seq<Entry>, id: Bytes)
    requires Covered(dict, window) && forall k :: k in dict ==> Holds(window, k)
    ensures Find(Listed(dict, window), id) == Lookup(dict, id)
    decreases |window|
  {
    if window != [] {
      ListedRest(dict, window);
      AllHeldRest(dict, window);
      FindListed(Without(dict, window[0].id), window[1..], id);
    }
  }

  /** One operation: on a consistent cache, with an identifier that is fresh if it is stored, the cache does
      what the list does, and stays consistent with less entries than its size. */
  lemma StepRefines<S>(cache: Cache<S>, op: Op<S>)
    requires Consistent(cache) && InOrder(cache.window, op.now)
    requires op.Set? ==> !Holds(cache.window, op.id)
    ensures var (r, cache') := Step(cache, op);
            var (found, items) := ListStep(Listed(cache.dict, cache.window), cache.size, cache.maxAge, op);
            && Consistent(cache') && cache'.size == cache.size && cache'.maxAge == cache.maxAge
            && r == Ok(found) && Listed(cache'.dict, cache'.window) == items
            && InOrder(cache'.window, op.now)
  {
    match op
    case Set(id, session, now) => SetRefines(cache, id, session, now);
    case Get(id, now) =>
      ExpireLeaves(cache.dict, cache.window, cache.maxAge, now);
      var cache' := Purge(cache, now).cache;
      FindListed(cache'.dict, cache'.window, id);
  }

  lemma SetRefines<S>(cache: Cache<S>, id: Bytes, session: S, now: real)
    requires Consistent(cache) && InOrder(cache.window, now) && !Holds(cache.window, id)
    ensures var c := SetItem(cache, id, session, now);
            && c.res.Ok? && Consistent(c.cache) && InOrder(c.cache.window, now)
            && Listed(c.cache.dict, c.cache.window)
            == ListStep(Listed(cache.dict, cache.window), cache.size, cache.maxAge, Set(id, session, now)).1
  {
    var dict, window := cache.dict[id := session], cache.window + [Entry(id, now)];
    ListedMore(cache.dict, cache.window, id, session, now);
    ListedRest(dict, window);
    assert InOrder(window, now) && InOrder(window[1..], now);
    InsertFresh(cache, id, session, now);
    hide Covered, InOrder, Holds;
  }

  lemma ListedMore<S>(dict: map<Bytes, S>, window: seq<Entry>, id: Bytes, session: S, now: real)
    requires Covered(dict, window) && !Holds(window, id)
    ensures Covered(dict[id := session], window + [Entry(id, now)])
    ensures Listed(dict[id := session], window + [Entry(id, now)]) == Listed(dict, window) + [Item(id, session, now)]
  {
  }

  /** The results of a run of operations on the cache, up to an internal failure. */
  function RunCache<S>(cache: Cache<S>, ops: seq<Op<S>>): (Result<seq<Option<S>>>, Cache<S>)
    decreases |ops|
  {
    if ops == [] then (Ok([]), cache)
    else
      var (r, cache') := Step(cache, ops[0]);
      match r
      case Err(e) => (Err(e), cache')
      case Ok(found) =>
        var (later, end) := RunCache(cache', ops[1..]);
        (if later.Ok? then Ok([found] + later.value) else later, end)
  }

  function RunList<S>(items: seq<Item<S>>, size: nat, maxAge: real, ops: seq<Op<S>>): (seq<Option<S>>, seq<Item<S>>)
    decreases |ops|
  {
    if ops == [] then ([], items)
    else
      var (found, items') := ListStep(items, size, maxAge, ops[0]);
      var (later, end) := RunList(items', size, maxAge, ops[1..]);
      ([found] + later, end)
  }

  /** The clock never goes back. */
  predicate Monotone<S>(ops: seq<Op<S>>, from: real) {
    ops != [] ==> from <= ops[0].now && Monotone(ops[1..], ops[0].now)
  }

  predicate HasId<S>(items: seq<Item<S>>, id: Bytes) {
    exists i :: 0 <= i < |items| && items[i].id == id
  }

  /** No session is stored under an identifier that the list still has. */
  predicate FreshIds<S>(items: seq<Item<S>>, size: nat, maxAge: real, ops: seq<Op<S>>)
    decreases |ops|
  {
    ops != [] ==>
      && (ops[0].Set? ==> !HasId(items, ops[0].id))
      && FreshIds(ListStep(items, size, maxAge, ops[0]).1, size, maxAge, ops[1..])
  }

  lemma HeldIffListed<S>(dict: map<Bytes, S>, window: seq<Entry>, id: Bytes)
    requires Covered(dict, window)
    ensures Holds(window, id) <==> HasId(Listed(dict, window), id)
  {
    var items := Listed(dict, window);
    assert forall i :: 0 <= i < |items| ==> items[i].id == window[i].id;
  }

  /** The cache refines the ordered list: over every run with a monotone clock and fresh identifiers no internal
      deletion fails, every lookup finds what the list has, and at most size - 1 sessions are kept. */
  lemma {:induction false} RunRefines<S>(cache: Cache<S>, ops: seq<Op<S>>, from: real)
    requires Consistent(cache) && InOrder(cache.window, from) && Monotone(ops, from)
    requires FreshIds(Listed(cache.dict, cache.window), cache.size, cache.maxAge, ops)
    ensures var (r, cache') := RunCache(cache, ops);
            var (found, items) := RunList(Listed(cache.dict, cache.window), cache.size, cache.maxAge, ops);
            && Consistent(cache') && r == Ok(found) && Listed(cache'.dict, cache'.window) == items
            && |items| <= cache.size - 1
    decreases |ops|
  {
    if ops != [] {
      var op := ops[0];
      var items := Listed(cache.dict, cache.window);
      HeldIffListed(cache.dict, cache.window, op.id);
      StepRefines(cache, op);
      RunRefines(Step(cache, op).1, ops[1..], op.now);
    }
  }

  /** The state after every prefix of a run can be purged without failing. */
  ghost predicate AlwaysSafe<S>(cache: Cache<S>, ops: seq<Op<S>>)
    decreases |ops|
  {
    Safe(cache) && (ops != [] ==> Step(cache, ops[0]).0.Ok? && AlwaysSafe(Step(cache, ops[0]).1, ops[1..]))
  }

  /** Over a whole run, safety is exactly freshness of the identifiers stored, if there is room for any. */
  lemma {:induction false} RunSafeIffFresh<S>(cache: Cache<S>, ops: seq<Op<S>>, from: real)
    requires Consistent(cache) && cache.size >= 2 && InOrder(cache.window, from) && Monotone(ops, from)
    ensures AlwaysSafe(cache, ops) <==> FreshIds(Listed(cache.dict, cache.window), cache.size, cache.maxAge, ops)
    decreases |ops|
  {
    hide Safe;
    SafeIffCovered(cache);
    if ops != [] {
      var op := ops[0];
      var items := Listed(cache.dict, cache.window);
      HeldIffListed(cache.dict, cache.window, op.id);
      if op.Set? && HasId(items, op.id) {
        InsertSafeIffFresh(cache, op.id, op.session, op.now);
        var next := Step(cache, op).1;
        assert !Safe(next);
      } else {
        StepRefines(cache, op);
        RunSafeIffFresh(Step(cache, op).1, ops[1..], op.now);
      }
    }
  }
}

/** The cache as the original has it: a dictionary and an array used as a ring. */
module SessionCacheRing {
  import opened Results
  import opened ByteStrings
  import opened SessionCaches

  /** The position after i, where the ring closes. */
  function Next(i: nat, n: nat): (r: nat)
    requires i < n
    ensures r == if i + 1 < n then i + 1 else 0
  {
    (i + 1) % n
  }

  function Position(first: nat, i: nat, n: nat): (r: nat)
    requires first < n && i < n
    ensures r < n
  {
    if first + i < n then first + i else first + i - n
  }

  function Occupied(first: nat, last: nat, n: nat): (k: nat)
    requires first < n && last < n
    ensures k < n && Position(first, k, n) == last && (k == 0 <==> first == last)
  {
    if first <= last then last - first else last + n - first
  }

  /** The entries from first up to, but not including, last. */
  function Window(ring: seq<Entry>, first: nat, last: nat): seq<Entry>
    requires (first < |ring| && last < |ring|) || |ring| == 0
  {
    if |ring| == 0 then []
    else
      seq(Occupied(first, last, |ring|), i requires 0 <= i < Occupied(first, last, |ring|) => ring[Position(first, i, |ring|)])
  }

  lemma PositionNext(first: nat, i: nat, n: nat)
    requires first < n && i + 1 < n
    ensures Position(first, i + 1, n) == Position(Next(first, n), i, n)
  {
    hide Next;
  }

  lemma OccupiedNext(first: nat, last: nat, n: nat)
    requires first < n && last < n && first != last
    ensures Occupied(Next(first, n), last, n) == Occupied(first, last, n) - 1 && Position(first, 0, n) == first
  {
    hide Next;
  }

  lemma WindowEntry(ring: seq<Entry>, first: nat, last: nat, i: nat)
    requires first < |ring| && last < |ring| && i < Occupied(first, last, |ring|)
    ensures |Window(ring, first, last)| == Occupied(first, last, |ring|)
    ensures Window(ring, first, last)[i] == ring[Position(first, i, |ring|)]
  {
    hide Position, Occupied;
  }

  lemma WindowLength(ring: seq<Entry>, first: nat, last: nat)
    requires first < |ring| && last < |ring|
    ensures |Window(ring, first, last)| == Occupied(first, last, |ring|)
  {
    hide Position, Occupied;
  }

  lemma FirstAndRest<T>(whole: seq<T>, head: T, rest: seq<T>)
    requires |whole| == |rest| + 1 && whole[0] == head && forall i :: 0 <= i < |rest| ==> whole[i + 1] == rest[i]
    ensures whole == [head] + rest
  {
  }

  lemma WindowPop(ring: seq<Entry>, first: nat, last: nat)
    requires first < |ring| && last < |ring| && first != last
    ensures Window(ring, first, last) == [ring[first]] + Window(ring, Next(first, |ring|), last)
  {
    hide Position, Occupied, Next, Window;
    var n := |ring|;
    OccupiedNext(first, last, n);
    WindowLength(ring, first, last);
    WindowLength(ring, Next(first, n), last);
    WindowEntry(ring, first, last, 0);
    var whole, rest := Window(ring, first, last), Window(ring, Next(first, n), last);
    forall i | 0 <= i < |rest| ensures whole[i + 1] == rest[i] {
      WindowEntry(ring, first, last, i + 1);
      WindowEntry(ring, Next(first, n), last, i);
      PositionNext(first, i, n);
    }
    FirstAndRest(whole, ring[first], rest);
  }

  lemma WindowEmpty(ring: seq<Entry>, first: nat)
    requires first < |ring| || |ring| == 0
    ensures Window(ring, first, first) == []
  {
  }

  lemma ExpireFirst<S>(dict: map<Bytes, S>, window: seq<Entry>, maxAge: real, now: real)
    requires window != [] && Expired(window[0], maxAge, now)
    ensures Expire(dict, window, maxAge, now) ==
              if window[0].id !in dict then (Err(KeyError), dict)
              else
                var (r, dict') := Expire(Without(dict, window[0].id), window[1..], maxAge, now);
                (if r.Ok? then Ok(r.value + 1) else r, dict')
  {
  }

  lemma ExpireNothing<S>(dict: map<Bytes, S>, window: seq<Entry>, maxAge: real, now: real)
    requires window == [] || !Expired(window[0], maxAge, now)
    ensures Expire(dict, window, maxAge, now) == (Ok(0), dict)
  {
  }

  lemma LastAndRest<T>(whole: seq<T>, rest: seq<T>, last: T)
    requires |whole| == |rest| + 1 && whole[|rest|] == last && forall i :: 0 <= i < |rest| ==> whole[i] == rest[i]
    ensures whole == rest + [last]
  {
  }

  lemma OccupiedMore(first: nat, last: nat, n: nat)
    requires first < n && last < n
    ensures Next(last, n) != first ==> Occupied(first, Next(last, n), n) == Occupied(first, last, n) + 1
    ensures Next(last, n) == first ==> Occupied(first, last, n) == n - 1
    ensures Position(first, Occupied(first, last, n), n) == last
    ensures forall i :: 0 <= i < Occupied(first, last, n) ==> Position(first, i, n) != last
  {
    hide Next;
  }

  lemma WindowPush(ring: seq<Entry>, first: nat, last: nat, e: Entry)
    requires first < |ring| && last < |ring|
    ensures var ring', next := ring[last := e], Next(last, |ring|);
            if next != first then Window(ring', first, next) == Window(ring, first, last) + [e]
            else
              && |Window(ring, first, last)| + 1 == |ring|
              && [ring'[first]] + Window(ring', Next(first, |ring|), next) == Window(ring, first, last) + [e]
  {
    hide Position, Occupied, Next, Window;
    var ring', next, n := ring[last := e], Next(last, |ring|), |ring|;
    OccupiedMore(first, last, n);
    WindowLength(ring, first, last);
    var k := Occupied(first, last, n);
    var window := Window(ring, first, last);
    forall i | 0 <= i < k ensures window[i] == ring'[Position(first, i, n)] {
      WindowEntry(ring, first, last, i);
    }
    if next != first {
      WindowLength(ring', first, next);
      forall i | 0 <= i < k + 1 ensures Window(ring', first, next)[i] == ring'[Position(first, i, n)] {
        WindowEntry(ring', first, next, i);
      }
      LastAndRest(Window(ring', first, next), window, e);
    } else {
      FullRing(ring', first, last);
      LastAndRest([ring'[first]] + Window(ring', Next(first, n), next), window, e);
    }
  }

  /** All entries of a full ring, from the oldest to the newest. */
  lemma FullRing(ring: seq<Entry>, first: nat, last: nat)
    requires first < |ring| && last < |ring| && Next(last, |ring|) == first
    ensures var all := [ring[first]] + Window(ring, Next(first, |ring|), first);
            |all| == |ring| && forall i :: 0 <= i < |ring| ==> all[i] == ring[Position(first, i, |ring|)]
  {
    var n := |ring|;
    var rest := Window(ring, Next(first, n), first);
    OccupiedRest(first, n);
    hide Position, Occupied, Next, Window;
    WindowLength(ring, Next(first, n), first);
    forall i | 0 <= i < n - 1 ensures rest[i] == ring[Position(first, i + 1, n)] {
      WindowEntry(ring, Next(first, n), first, i);
      PositionNext(first, i, n);
    }
    var all := [ring[first]] + rest;
    assert forall i :: 1 <= i < n ==> all[i] == rest[i - 1];
  }

  lemma OccupiedRest(first: nat, n: nat)
    requires first < n
    ensures Occupied(Next(first, n), first, n) == n - 1 && Position(first, 0, n) == first
  {
    hide Next;
  }

  /** A session, which its owners may invalidate while it is cached. */
  class Session {
    var resumable: bool
    var sessionId: Bytes
    var tickets: nat

    constructor (sessionId: Bytes, tickets: nat)
      ensures resumable && this.sessionId == sessionId && this.tickets == tickets
    {
      resumable, this.sessionId, this.tickets := true, sessionId, tickets;
    }

    predicate IsValid()
      reads this
    {
      resumable && (sessionId != [] || tickets > 0)
    }
  }

  class SessionCache {
    var entriesDict: map<Bytes, Session>
    const entriesList: array<Entry>
    var firstIndex: nat
    var lastIndex: nat
    const maxAge: real

    ghost predicate Valid()
      reads this
    {
      if entriesList.Length == 0 then firstIndex == 0 == lastIndex
      else firstIndex < entriesList.Length && lastIndex < entriesList.Length
    }

    ghost function Value(): Cache<Session>
      requires Valid()
      reads this, entriesList
    {
      Cache(entriesDict, Window(entriesList[..], firstIndex, lastIndex), entriesList.Length, maxAge)
    }

    constructor (maxEntries: nat, maxAge: real)
      ensures Valid() && fresh(entriesList) && Value() == Cache(map[], [], maxEntries, maxAge)
    {
      entriesDict := map[];
      entriesList := new Entry[maxEntries](_ => Entry([], 0.0));
      firstIndex, lastIndex := 0, 0;
      this.maxAge := maxAge;
    }

    /** Delete expired entries from the oldest on. */
    method Purge(now: real) returns (r: Result<()>)
      requires Valid()
      modifies this
      ensures Valid() && Changed(r, Value()) == SessionCaches.Purge(old(Value()), now)
    {
      hide Window, Expire;
      ghost var ring, window, dict := entriesList[..], Value().window, entriesDict;
      ExpireBounded(dict, window, maxAge, now);
      ghost var n: nat := 0;
      var index: nat := firstIndex;
      while index != lastIndex
        invariant if |ring| == 0 then index == lastIndex else index < |ring| && lastIndex < |ring|
        invariant n <= |window| && Window(ring, index, lastIndex) == window[n..]
        invariant firstIndex == old(firstIndex) && lastIndex == old(lastIndex)
        invariant var (r', dict') := Expire(entriesDict, window[n..], maxAge, now);
                  Expire(dict, window, maxAge, now) == (if r'.Ok? then Ok(r'.value + n) else r', dict')
        decreases |window| - n
      {
        WindowPop(ring, index, lastIndex);
        assert window[n..][1..] == window[n + 1..];
        if now - entriesList[index].time > maxAge {
          ExpireFirst(entriesDict, window[n..], maxAge, now);
          if entriesList[index].id !in entriesDict {
            return Err(KeyError);
          }
          entriesDict := map k | k in entriesDict && k != entriesList[index].id :: entriesDict[k];
          index := Next(index, entriesList.Length);
          n := n + 1;
        } else {
          break;
        }
      }
      WindowEmpty(ring, index);
      ExpireNothing(entriesDict, window[n..], maxAge, now);
      firstIndex := index;
      return Ok(());
    }

    /** __getitem__: the very session that was stored, if it has not expired and is still valid. */
    method GetItem(id: Bytes, now: real) returns (r: Result<Session>)
      requires Valid()
      modifies this
      ensures Valid()
      ensures var (found, cache) := Step(old(Value()), Get(id, now));
              && Value() == cache
              && match found
                 case Err(e) => r == Err(e)
                 case Ok(None) => r == Err(KeyError)
                 case Ok(Some(session)) => r == if session.IsValid() then Ok(session) else Err(KeyError)
    {
      var _ :- Purge(now);
      if id !in entriesDict { return Err(KeyError); }
      var session := entriesDict[id];
      if session.IsValid() { return Ok(session); }
      return Err(KeyError);
    }

    /** __setitem__ */
    method SetItem(id: Bytes, session: Session, now: real) returns (r: Result<()>)
      requires Valid()
      modifies this, entriesList
      ensures Valid() && Changed(r, Value()) == SessionCaches.SetItem(old(Value()), id, session, now)
    {
      entriesDict := entriesDict[id := session];
      if entriesList.Length == 0 { return Err(IndexError); }
      WindowPush(entriesList[..], firstIndex, lastIndex, Entry(id, now));
      entriesList[lastIndex] := Entry(id, now);
      assert entriesList[..] == old(entriesList[..])[lastIndex := Entry(id, now)];
      lastIndex := Next(lastIndex, entriesList.Length);
      if lastIndex == firstIndex {
        var oldest := entriesList[firstIndex].id;
        if oldest !in entriesDict { return Err(KeyError); }
        entriesDict := map k | k in entriesDict && k != oldest :: entriesDict[k];
        firstIndex := Next(firstIndex, entriesList.Length);
      }
      return Ok(());
    }
  }
}
