/**
 The bounded response cache: a timestamped map with a refresh period, swept now and
 then, evicting the least recently refreshed entry when it overflows.

 The steps are functions of the stored map; the class performs them in place. Clock
 readings (nanoseconds, nondecreasing) and the entry that iteration order picks among
 equally old ones come in as part of each step.
 */
module ResponseCaches {
  import opened Text

  datatype Config = Config(refreshPeriod: nat, maxEntries: nat)
  {
    /** What configuration validation demands of an enabled cache. */
    predicate Enabled() { refreshPeriod > 0 && maxEntries >= 1 }
  }

  /** A cache key: an opaque byte string. */
  type Key = string

  datatype Entry<R> = Entry(response: R, lastUpdated: nat)

  const NANOS_PER_MILLI: nat := 1_000_000
  const PRUNE_INTERVAL: nat := 256

  /** Age in whole milliseconds has reached the refresh period. */
  predicate Expired<R>(c: Config, e: Entry<R>, now: nat) {
    now >= e.lastUpdated && (now - e.lastUpdated) / NANOS_PER_MILLI >= c.refreshPeriod
  }

  /** What is left after a sweep. */
  function Pruned<R>(c: Config, m: map<Key, Entry<R>>, now: nat): map<Key, Entry<R>> {
    map k | k in m && !Expired(c, m[k], now) :: m[k]
  }

  predicate IsOldest<R>(m: map<Key, Entry<R>>, victim: Key) {
    victim in m && forall k :: k in m ==> m[victim].lastUpdated <= m[k].lastUpdated
  }

  // ------------------------------------------------------------------- the steps

  datatype Op<R> =
    | Lookup(key: Key, sweepTime: nat, time: nat)
    | Store(key: Key, response: R, time: nat, victim: Key)

  datatype State<R> = State(entries: map<Key, Entry<R>>, counter: nat)

  function LookupState<R>(c: Config, s: State<R>, now: nat): State<R> {
    if s.counter + 1 >= PRUNE_INTERVAL then State(Pruned(c, s.entries, now), 0)
    else State(s.entries, s.counter + 1)
  }

  function Found<R>(c: Config, m: map<Key, Entry<R>>, key: Key, now: nat): Option<R> {
    if key in m && !Expired(c, m[key], now) then Some(m[key].response) else None
  }

  /** A new key makes the map too large even after a sweep. */
  predicate Overflows<R>(c: Config, m: map<Key, Entry<R>>, key: Key, e: Entry<R>) {
    key !in m && |m[key := e]| > c.maxEntries && |Pruned(c, m[key := e], e.lastUpdated)| > c.maxEntries
  }

  function Stored<R>(c: Config, m: map<Key, Entry<R>>, key: Key, e: Entry<R>, victim: Key): map<Key, Entry<R>> {
    var grown := m[key := e];
    if key in m || |grown| <= c.maxEntries then grown
    else if Overflows(c, m, key, e) then Pruned(c, grown, e.lastUpdated) - {victim}
    else Pruned(c, grown, e.lastUpdated)
  }

  function Step<R>(c: Config, s: State<R>, op: Op<R>): State<R> {
    match op
    case Lookup(key, sweepTime, time) => LookupState(c, s, sweepTime)
    case Store(key, response, time, victim) =>
      s.(entries := Stored(c, s.entries, key, Entry(response, time), victim))
  }

  /** The operation can happen in this state after clock reading `t`. */
  predicate CanStep<R>(c: Config, s: State<R>, op: Op<R>, t: nat) {
    match op
    case Lookup(_, sweepTime, time) => t <= sweepTime <= time
    case Store(key, response, time, victim) =>
      && t <= time
      && var e := Entry(response, time);
         Overflows(c, s.entries, key, e) ==> IsOldest(Pruned(c, s.entries[key := e], time), victim)
  }

  // ------------------------------------------------------------------- the class

  /** A non-empty map has an oldest entry. */
  lemma {:induction false} OldestExists<R>(m: map<Key, Entry<R>>)
    requires m != map[]
    ensures exists k :: IsOldest(m, k)
    decreases |m|
  {
    var k :| k in m;
    var rest := m - {k};
    if rest == map[] {
      assert forall j :: j in m && j != k ==> j in rest;
      assert IsOldest(m, k);
    } else {
      assert |rest| < |m| by { assert rest.Keys < m.Keys; KeysShrink(rest, m); }
      OldestExists(rest);
      var o :| IsOldest(rest, o);
      var best := if m[k].lastUpdated < m[o].lastUpdated then k else o;
      forall j | j in m ensures m[best].lastUpdated <= m[j].lastUpdated {
        if j != k { assert j in rest; }
      }
      assert IsOldest(m, best);
    }
  }

  lemma KeysShrink<R>(a: map<Key, Entry<R>>, b: map<Key, Entry<R>>)
    requires a.Keys <= b.Keys
    ensures |a| <= |b| && (a.Keys < b.Keys ==> |a| < |b|)
  {
    assert |a| == |a.Keys| && |b| == |b.Keys|;
    CountSubset(a.Keys, b.Keys);
  }

  lemma {:induction false} CountSubset(a: set<Key>, b: set<Key>)
    requires a <= b
    ensures |a| <= |b| && (a < b ==> |a| < |b|)
  {
    assert b == a + (b - a);
    assert |b| == |a| + |b - a|;
    if a < b { assert b - a != {}; }
  }

  class ResponseCache<R> {
    const config: Config
    var entries: map<Key, Entry<R>>
    var pruneCounter: nat

    constructor (config: Config)
      ensures this.config == config && Contents() == State(map[], 0)
    {
      this.config := config;
      entries, pruneCounter := map[], 0;
    }

    function Contents(): State<R>
      reads this
    {
      State(entries, pruneCounter)
    }

    /** Walk the table, erasing every expired entry. */
    method PruneExpired(now: nat)
      modifies this`entries
      ensures entries == Pruned(config, old(entries), now)
    {
      var rest := entries.Keys;
      while rest != {}
        invariant rest <= old(entries).Keys && rest <= entries.Keys
        invariant entries.Keys == rest + Pruned(config, old(entries), now).Keys
        invariant forall k :: k in entries ==> k in old(entries) && entries[k] == old(entries)[k]
      {
        var k :| k in rest;
        if Expired(config, entries[k], now) {
          entries := entries - {k};
        }
        rest := rest - {k};
      }
    }

    method LookupFresh(key: Key, sweepTime: nat, time: nat) returns (hit: Option<R>)
      modifies this
      ensures Contents() == LookupState(config, old(Contents()), sweepTime)
      ensures hit == Found(config, entries, key, time)
    {
      pruneCounter := pruneCounter + 1;
      if pruneCounter >= PRUNE_INTERVAL {
        pruneCounter := 0;
        PruneExpired(sweepTime);
      }
      if key !in entries { return None; }
      if Expired(config, entries[key], time) { return None; }
      return Some(entries[key].response);
    }

    /** `victim` is the entry that went, when one had to. */
    method StoreResponse(key: Key, response: R, now: nat) returns (ghost victim: Key)
      modifies this`entries
      ensures Contents() == Step(config, old(Contents()), Store(key, response, now, victim))
      ensures CanStep(config, old(Contents()), Store(key, response, now, victim), now)
    {
      victim := key;
      if key in entries {
        entries := entries[key := Entry(response, now)];
        return;
      }
      entries := entries[key := Entry(response, now)];
      if |entries| > config.maxEntries {
        PruneExpired(now);
        if |entries| > config.maxEntries {
          OldestExists(entries);
          var oldest :| oldest in entries && IsOldest(entries, oldest);
          victim := oldest;
          entries := entries - {oldest};
        }
      }
    }
  }

  // -------------------------------------------------------------- sweeps are silent

  lemma PruneTwice<R>(c: Config, m: map<Key, Entry<R>>, t: nat, t': nat)
    requires t <= t'
    ensures Pruned(c, Pruned(c, m, t), t') == Pruned(c, m, t')
  {
    forall e: Entry<R> | Expired(c, e, t) ensures Expired(c, e, t') { ExpiryStays(c, e, t, t'); }
  }

  lemma ExpiryStays<R>(c: Config, e: Entry<R>, t: nat, t': nat)
    requires t <= t' && Expired(c, e, t)
    ensures Expired(c, e, t')
  {
  }

  /** What a store leaves, seen through a sweep, depends only on the fresh entries before it. */
  lemma StoreSeenFresh<R>(c: Config, m: map<Key, Entry<R>>, key: Key, e: Entry<R>, victim: Key)
    requires c.Enabled() && |m| <= c.maxEntries
    ensures var fresh_ := Pruned(c, m, e.lastUpdated)[key := e];
            && (Overflows(c, m, key, e) <==> |fresh_| > c.maxEntries)
            && (Overflows(c, m, key, e) ==> Pruned(c, m[key := e], e.lastUpdated) == fresh_)
            && Pruned(c, Stored(c, m, key, e, victim), e.lastUpdated) ==
                 (if |fresh_| > c.maxEntries then fresh_ - {victim} else fresh_)
  {
    hide Pruned, Expired;
    var t := e.lastUpdated;
    var grown := m[key := e];
    var f := Pruned(c, m, t)[key := e];
    GrownPruned(c, m, key, e);
    PrunedWithin(c, grown, t);
    KeysShrink(f, grown);
    if key in m {
      assert grown.Keys == m.Keys;
      KeysShrink(grown, m);
    }
    PruneTwice(c, grown, t, t);
    PrunedWithout(c, grown, t, victim);
  }

  lemma GrownPruned<R>(c: Config, m: map<Key, Entry<R>>, key: Key, e: Entry<R>)
    requires c.Enabled()
    ensures Pruned(c, m[key := e], e.lastUpdated) == Pruned(c, m, e.lastUpdated)[key := e]
  {
    assert !Expired(c, e, e.lastUpdated);
  }

  lemma PrunedWithin<R>(c: Config, m: map<Key, Entry<R>>, t: nat)
    ensures Pruned(c, m, t).Keys <= m.Keys
  {
  }

  lemma PrunedWithout<R>(c: Config, m: map<Key, Entry<R>>, t: nat, victim: Key)
    ensures Pruned(c, Pruned(c, m, t) - {victim}, t) == Pruned(c, m, t) - {victim}
  {
  }

  lemma StoreKeepsBound<R>(c: Config, m: map<Key, Entry<R>>, key: Key, e: Entry<R>, victim: Key)
    requires |m| <= c.maxEntries
    requires Overflows(c, m, key, e) ==> IsOldest(Pruned(c, m[key := e], e.lastUpdated), victim)
    ensures |Stored(c, m, key, e, victim)| <= c.maxEntries
  {
    hide IsOldest;
    var grown := m[key := e];
    if key in m {
      assert grown.Keys == m.Keys;
      KeysShrink(grown, m);
    } else if Overflows(c, m, key, e) {
      OneMore(m, key, e);
      var f := Pruned(c, grown, e.lastUpdated);
      KeysShrink(f, grown);
      VictimGoes(f, victim);
    }
  }

  lemma OneMore<V>(m: map<Key, V>, key: Key, e: V)
    requires key !in m
    ensures |m[key := e]| == |m| + 1
  {
    assert m[key := e].Keys == m.Keys + {key};
    assert |m[key := e]| == |m[key := e].Keys| && |m| == |m.Keys|;
  }

  lemma VictimGoes<R>(f: map<Key, Entry<R>>, victim: Key)
    requires IsOldest(f, victim)
    ensures |f - {victim}| < |f|
  {
    assert (f - {victim}).Keys < f.Keys;
    KeysShrink(f - {victim}, f);
  }

  /** Everything the lookups of a run return. */
  function Results<R>(c: Config, s: State<R>, ops: seq<Op<R>>): seq<Option<R>>
    decreases |ops|
  {
    if ops == [] then []
    else
      var s' := Step(c, s, ops[0]);
      (if ops[0].Lookup? then [Found(c, s'.entries, ops[0].key, ops[0].time)] else []) + Results(c, s', ops[1..])
  }

  /** Every operation can happen in its turn. */
  predicate CanRun<R>(c: Config, s: State<R>, ops: seq<Op<R>>, t: nat)
    decreases |ops|
  {
    ops == [] || (CanStep(c, s, ops[0], t) && CanRun(c, Step(c, s, ops[0]), ops[1..], ops[0].time))
  }

  lemma FoundSeenFresh<R>(c: Config, m: map<Key, Entry<R>>, key: Key, t: nat)
    ensures Found(c, m, key, t) == Found(c, Pruned(c, m, t), key, t)
  {
  }

  lemma LookupSeenFresh<R>(c: Config, s: State<R>, t: nat, t': nat)
    requires t <= t' && |s.entries| <= c.maxEntries
    ensures var s' := LookupState(c, s, t);
            Pruned(c, s'.entries, t') == Pruned(c, s.entries, t') && |s'.entries| <= c.maxEntries
  {
    PruneTwice(c, s.entries, t, t');
    KeysShrink(Pruned(c, s.entries, t), s.entries);
  }

  /** One step from two states that agree on what is fresh. */
  lemma StepAgrees<R>(c: Config, a: State<R>, b: State<R>, op: Op<R>, t: nat)
    requires c.Enabled() && |a.entries| <= c.maxEntries && |b.entries| <= c.maxEntries
    requires Pruned(c, a.entries, t) == Pruned(c, b.entries, t)
    requires CanStep(c, a, op, t)
    ensures CanStep(c, b, op, t)
    ensures var a', b' := Step(c, a, op), Step(c, b, op);
            && |a'.entries| <= c.maxEntries && |b'.entries| <= c.maxEntries
            && Pruned(c, a'.entries, op.time) == Pruned(c, b'.entries, op.time)
  {
    hide Pruned, Stored, Overflows, IsOldest;
    var t' := op.time;
    assert Pruned(c, a.entries, t') == Pruned(c, b.entries, t') by {
      PruneTwice(c, a.entries, t, t');
      PruneTwice(c, b.entries, t, t');
    }
    match op
    case Lookup(key, sweepTime, time) =>
      LookupSeenFresh(c, a, sweepTime, time);
      LookupSeenFresh(c, b, sweepTime, time);
    case Store(key, response, time, victim) =>
      var e := Entry(response, time);
      StoreSeenFresh(c, a.entries, key, e, victim);
      StoreSeenFresh(c, b.entries, key, e, victim);
      StoreKeepsBound(c, a.entries, key, e, victim);
      StoreKeepsBound(c, b.entries, key, e, victim);
  }

  /**
   Sweeping is invisible: from any two states that agree on the fresh entries, whatever
   their expired ones and their sweep counters, every run returns the same answers,
   evictions included.
   */
  lemma {:induction false} PruningInvisible<R>(c: Config, a: State<R>, b: State<R>, ops: seq<Op<R>>, t: nat)
    requires c.Enabled() && |a.entries| <= c.maxEntries && |b.entries| <= c.maxEntries
    requires Pruned(c, a.entries, t) == Pruned(c, b.entries, t)
    requires CanRun(c, a, ops, t)
    ensures CanRun(c, b, ops, t) && Results(c, a, ops) == Results(c, b, ops)
    decreases |ops|
  {
    hide Pruned, Step, CanStep, Found;
    if ops != [] {
      var a', b', t' := Step(c, a, ops[0]), Step(c, b, ops[0]), ops[0].time;
      StepAgrees(c, a, b, ops[0], t);
      FoundSeenFresh(c, a'.entries, ops[0].key, t');
      FoundSeenFresh(c, b'.entries, ops[0].key, t');
      PruningInvisible(c, a', b', ops[1..], t');
    }
  }

  // ------------------------------------------------------------ meaning of a lookup

  /** The state after a run from an empty cache. */
  function After<R>(c: Config, ops: seq<Op<R>>): State<R> {
    if ops == [] then State(map[], 0) else Step(c, After(c, ops[..|ops| - 1]), ops[|ops| - 1])
  }

  /** Clock reading at the end of a run. */
  function Clock<R>(ops: seq<Op<R>>): nat { if ops == [] then 0 else ops[|ops| - 1].time }

  predicate Possible<R>(c: Config, ops: seq<Op<R>>) {
    ops == [] ||
    (var before := ops[..|ops| - 1];
     Possible(c, before) && CanStep(c, After(c, before), ops[|ops| - 1], Clock(before)))
  }

  /** The last response stored under a key, with its time. */
  function LastStore<R>(ops: seq<Op<R>>, key: Key): Option<Entry<R>> {
    if ops == [] then None
    else
      var op := ops[|ops| - 1];
      if op.Store? && op.key == key then Some(Entry(op.response, op.time)) else LastStore(ops[..|ops| - 1], key)
  }

  /** Some store since the last one of this key pushed it out for lack of room. */
  predicate Evicted<R>(c: Config, ops: seq<Op<R>>, key: Key) {
    ops != [] &&
    var before, op := ops[..|ops| - 1], ops[|ops| - 1];
    ((op.Lookup? || op.key != key) && Evicted(c, before, key)) ||
    (op.Store? && op.victim == key && Overflows(c, After(c, before).entries, op.key, Entry(op.response, op.time)))
  }

  /** Which entries the cache still holds, against the whole history. */
  ghost predicate Faithful<R>(c: Config, ops: seq<Op<R>>, key: Key) {
    var m := After(c, ops).entries;
    && (key in m ==> LastStore(ops, key) == Some(m[key]) && !Evicted(c, ops, key))
    && (key !in m && LastStore(ops, key).Some? ==>
          Evicted(c, ops, key) || Expired(c, LastStore(ops, key).value, Clock(ops)))
  }

  /** One more operation keeps the history faithful. */
  lemma LookupKeepsHistory<R>(c: Config, ops: seq<Op<R>>, key: Key)
    requires ops != [] && ops[|ops| - 1].Lookup? && Possible(c, ops)
    requires Faithful(c, ops[..|ops| - 1], key)
    ensures Faithful(c, ops, key)
  {
    hide IsOldest, Expired;
    var before, op := ops[..|ops| - 1], ops[|ops| - 1];
    var last := LastStore(before, key);
    if last.Some? {
      if Expired(c, last.value, Clock(before)) { ExpiryStays(c, last.value, Clock(before), op.time); }
      if Expired(c, last.value, op.sweepTime) { ExpiryStays(c, last.value, op.sweepTime, op.time); }
    }
  }

  lemma StoreKeepsHistory<R>(c: Config, ops: seq<Op<R>>, key: Key)
    requires c.Enabled() && ops != [] && ops[|ops| - 1].Store? && Possible(c, ops)
    requires Faithful(c, ops[..|ops| - 1], key)
    ensures Faithful(c, ops, key)
  {
    hide IsOldest, Expired, Stored, Overflows, Pruned;
    var before, op := ops[..|ops| - 1], ops[|ops| - 1];
    var last := LastStore(before, key);
    if last.Some? && Expired(c, last.value, Clock(before)) {
      ExpiryStays(c, last.value, Clock(before), op.time);
    }
    StoredAt(c, After(c, before).entries, op.key, Entry(op.response, op.time), op.victim, key);
  }

  /** Where a store leaves a given key. */
  lemma StoredAt<R>(c: Config, m: map<Key, Entry<R>>, key: Key, e: Entry<R>, victim: Key, k: Key)
    requires c.Enabled()
    ensures var m' := Stored(c, m, key, e, victim);
            var out := Overflows(c, m, key, e) && victim == k;
            && (k in m' ==> !out && (k == key || k in m) && m'[k] == (if k == key then e else m[k]))
            && (k !in m' && k == key ==> out)
            && (k !in m' && k in m && k != key ==> out || Expired(c, m[k], e.lastUpdated))
  {
    hide Expired;
    JustStored(c, e);
  }

  lemma {:induction false} HistoryKept<R>(c: Config, ops: seq<Op<R>>, key: Key)
    requires c.Enabled() && Possible(c, ops)
    ensures |After(c, ops).entries| <= c.maxEntries
    ensures Faithful(c, ops, key)
    decreases |ops|
  {
    hide IsOldest, Expired, Pruned, Stored, Overflows, Evicted, LastStore;
    if ops == [] {
      NothingKept<R>(c, key);
    } else {
      var before, op := ops[..|ops| - 1], ops[|ops| - 1];
      HistoryKept(c, before, key);
      var s := After(c, before);
      match op
      case Lookup(_, sweepTime, time) =>
        LookupSeenFresh(c, s, sweepTime, time);
        LookupKeepsHistory(c, ops, key);
      case Store(k, response, time, victim) =>
        StoreKeepsBound(c, s.entries, k, Entry(response, time), victim);
        StoreKeepsHistory(c, ops, key);
    }
  }

  lemma NothingKept<R>(c: Config, key: Key)
    ensures Faithful<R>(c, [], key)
  {
  }

  lemma JustStored<R>(c: Config, e: Entry<R>)
    requires c.Enabled()
    ensures !Expired(c, e, e.lastUpdated)
  {
  }

  /** An entry is fresh for the milliseconds of the refresh period, to the nanosecond. */
  lemma FreshMeans<R>(c: Config, e: Entry<R>, now: nat)
    requires c.Enabled()
    ensures !Expired(c, e, now) <==> now - e.lastUpdated < c.refreshPeriod * 1_000_000
  {
    if now >= e.lastUpdated {
      var age := now - e.lastUpdated;
      assert age == age / NANOS_PER_MILLI * NANOS_PER_MILLI + age % NANOS_PER_MILLI;
    }
  }

  /**
   A lookup after any run: the response last stored under the key, exactly when it is
   younger than the refresh period and was not pushed out for lack of room.
   */
  lemma LookupMeaning<R>(c: Config, ops: seq<Op<R>>, key: Key, sweepTime: nat, time: nat)
    requires c.Enabled() && Possible(c, ops) && Clock(ops) <= sweepTime <= time
    ensures var s := Step(c, After(c, ops), Lookup(key, sweepTime, time));
            var last := LastStore(ops, key);
            Found(c, s.entries, key, time) ==
              (if last.Some? && time - last.value.lastUpdated < c.refreshPeriod * 1_000_000 && !Evicted(c, ops, key)
               then Some(last.value.response) else None)
  {
    hide Expired, After, LastStore, Evicted;
    HistoryKept(c, ops, key);
    var s, last := After(c, ops), LastStore(ops, key);
    LookupSeenFresh(c, s, sweepTime, time);
    FoundSeenFresh(c, s.entries, key, time);
    FoundSeenFresh(c, LookupState(c, s, sweepTime).entries, key, time);
    if last.Some? { FreshMeans(c, last.value, time); }
    if last.Some? && Expired(c, last.value, Clock(ops)) { ExpiryStays(c, last.value, Clock(ops), time); }
  }
}
