/** internal/engine/cache.go: the result cache, and the plain history of puts it agrees with.
    Times are instants of one clock; every operation passes the reading it acts on. */
module Caching {
  import opened Basics
  import opened Core

  datatype CacheTTL = CacheTTL(available: int, unavailable: int, unknown: int) {
    function Lifetime(availability: Availability): (lifetime: int)
      ensures availability.Available? ==> lifetime == available
      ensures availability.Unavailable? ==> lifetime == unavailable
      ensures availability.Unknown? ==> lifetime == unknown
    {
      match availability
      case Available => available
      case Unavailable => unavailable
      case Unknown => unknown
    }
  }

  datatype Entry<+S> = Entry(result: CheckResult<S>, expiresAt: int)

  // ---- The reference: what a list of puts means ----

  datatype PutRecord<+S> = PutRecord(key: string, result: CheckResult<S>, at: int) {
    function Expiry(ttl: CacheTTL): int {
      at + ttl.Lifetime(result.availability)
    }

    /** A put with no positive lifetime stores nothing. */
    predicate Stores(ttl: CacheTTL) {
      ttl.Lifetime(result.availability) > 0
    }
  }

  /** The newest put to `key` that stored something. */
  function Latest<S>(ttl: CacheTTL, puts: seq<PutRecord<S>>, key: string): Option<PutRecord<S>> {
    if puts == [] then None
    else
      var last := puts[|puts| - 1];
      if last.key == key && last.Stores(ttl) then Some(last) else Latest(ttl, puts[..|puts| - 1], key)
  }

  /** What a reader of the history gets at time `t`. */
  function Served<S>(ttl: CacheTTL, puts: seq<PutRecord<S>>, key: string, t: int): Option<CheckResult<S>> {
    match Latest(ttl, puts, key)
    case Some(put) => if t < put.Expiry(ttl) then Some(put.result.(cached := true)) else None
    case None => None
  }

  lemma {:induction false} LatestIsNewest<S>(ttl: CacheTTL, puts: seq<PutRecord<S>>, key: string)
    ensures match Latest(ttl, puts, key)
            case Some(put) =>
              exists i :: && 0 <= i < |puts| && puts[i] == put && put.key == key && put.Stores(ttl)
                          && forall j :: i < j < |puts| && puts[j].key == key ==> !puts[j].Stores(ttl)
            case None => forall i :: 0 <= i < |puts| && puts[i].key == key ==> !puts[i].Stores(ttl)
  {
    if puts != [] {
      var n := |puts| - 1;
      LatestIsNewest(ttl, puts[..n], key);
      match Latest(ttl, puts, key)
      case Some(put) =>
        if !(puts[n].key == key && puts[n].Stores(ttl)) {
          var i :| && 0 <= i < n && puts[..n][i] == put
                   && forall j :: i < j < n && puts[..n][j].key == key ==> !puts[..n][j].Stores(ttl);
          forall j | i < j < |puts| && puts[j].key == key ensures !puts[j].Stores(ttl) {
            assert j < n ==> puts[..n][j] == puts[j];
          }
          assert puts[i] == put;
        } else {
          assert puts[n] == put;
        }
      case None =>
        forall i | 0 <= i < |puts| && puts[i].key == key ensures !puts[i].Stores(ttl) {
          assert i < n ==> puts[..n][i] == puts[i];
        }
    }
  }

  /** What is served is an earlier put's result marked cached, strictly within the lifetime of its own outcome. */
  lemma ServedWithinLifetime<S>(ttl: CacheTTL, puts: seq<PutRecord<S>>, key: string, t: int)
    requires Served(ttl, puts, key, t).Some?
    ensures
      var got := Served(ttl, puts, key, t).value;
      exists put :: && put in puts && put.key == key && got == put.result.(cached := true)
                    && (put.result.availability == Available ==> ttl.available > 0 && t < put.at + ttl.available)
                    && (put.result.availability == Unavailable ==> ttl.unavailable > 0 && t < put.at + ttl.unavailable)
                    && (put.result.availability == Unknown ==> ttl.unknown > 0 && t < put.at + ttl.unknown)
  {
    LatestIsNewest(ttl, puts, key);
    assert Latest(ttl, puts, key).value in puts;
  }

  // ---- The operations on the entries map ----

  function Lookup<S>(entries: map<string, Entry<S>>, key: string, t: int): Option<CheckResult<S>> {
    if key in entries && t < entries[key].expiresAt then Some(entries[key].result.(cached := true)) else None
  }

  function AfterGet<S>(entries: map<string, Entry<S>>, key: string, t: int): map<string, Entry<S>> {
    if key in entries && t >= entries[key].expiresAt then entries - {key} else entries
  }

  function AfterPut<S>(ttl: CacheTTL, entries: map<string, Entry<S>>, put: PutRecord<S>): map<string, Entry<S>> {
    if put.Stores(ttl) then entries[put.key := Entry(put.result, put.Expiry(ttl))] else entries
  }

  function AfterPurge<S>(entries: map<string, Entry<S>>, readAt: int): map<string, Entry<S>> {
    map key | key in entries && readAt < entries[key].expiresAt :: entries[key]
  }

  // ---- The map agrees with the history ----

  /** Every entry is the newest stored put of its key; a key without entry has nothing left alive at `clock`. */
  ghost predicate Agrees<S>(ttl: CacheTTL, entries: map<string, Entry<S>>, puts: seq<PutRecord<S>>, clock: int) {
    forall key :: AgreesOn(ttl, entries, puts, clock, key)
  }

  ghost predicate AgreesOn<S>(ttl: CacheTTL, entries: map<string, Entry<S>>, puts: seq<PutRecord<S>>, clock: int,
                              key: string)
  {
    match Latest(ttl, puts, key)
    case Some(put) =>
      if key in entries then entries[key] == Entry(put.result, put.Expiry(ttl)) else put.Expiry(ttl) <= clock
    case None => key !in entries
  }

  /** A reader of the map sees exactly what a reader of the history sees. */
  lemma LookupIsServed<S>(ttl: CacheTTL, entries: map<string, Entry<S>>, puts: seq<PutRecord<S>>, clock: int,
                          key: string, t: int)
    requires Agrees(ttl, entries, puts, clock) && clock <= t
    ensures Lookup(entries, key, t) == Served(ttl, puts, key, t)
  {
    assert AgreesOn(ttl, entries, puts, clock, key);
  }

  lemma GetAgrees<S>(ttl: CacheTTL, entries: map<string, Entry<S>>, puts: seq<PutRecord<S>>, clock: int, key: string,
                     t: int)
    requires Agrees(ttl, entries, puts, clock) && clock <= t
    ensures Agrees(ttl, AfterGet(entries, key, t), puts, t)
  {
    forall k ensures AgreesOn(ttl, AfterGet(entries, key, t), puts, t, k) {
      assert AgreesOn(ttl, entries, puts, clock, k);
    }
  }

  lemma PutAgrees<S>(ttl: CacheTTL, entries: map<string, Entry<S>>, puts: seq<PutRecord<S>>, clock: int,
                     put: PutRecord<S>)
    requires Agrees(ttl, entries, puts, clock) && clock <= put.at
    ensures Agrees(ttl, AfterPut(ttl, entries, put), puts + [put], put.at)
  {
    var puts' := puts + [put];
    assert puts'[..|puts'| - 1] == puts;
    forall k ensures AgreesOn(ttl, AfterPut(ttl, entries, put), puts', put.at, k) {
      assert AgreesOn(ttl, entries, puts, clock, k);
    }
  }

  /** A purge may act on a clock reading older than puts that ran in between. */
  lemma PurgeAgrees<S>(ttl: CacheTTL, entries: map<string, Entry<S>>, puts: seq<PutRecord<S>>, clock: int, readAt: int)
    requires Agrees(ttl, entries, puts, clock) && readAt <= clock
    ensures Agrees(ttl, AfterPurge(entries, readAt), puts, clock)
  {
    forall k ensures AgreesOn(ttl, AfterPurge(entries, readAt), puts, clock, k) {
      assert AgreesOn(ttl, entries, puts, clock, k);
    }
  }

  lemma TickAgrees<S>(ttl: CacheTTL, entries: map<string, Entry<S>>, puts: seq<PutRecord<S>>, clock: int, t: int)
    requires Agrees(ttl, entries, puts, clock) && clock <= t
    ensures Agrees(ttl, entries, puts, t)
  {
    forall k ensures AgreesOn(ttl, entries, puts, t, k) {
      assert AgreesOn(ttl, entries, puts, clock, k);
    }
  }

  // ---- Whole runs ----

  datatype Operation<+S> =
    | Getting(key: string, at: int)
    | Putting(put: PutRecord<S>)
    | Purging(readAt: int, at: int) // the clock was read before the lock was taken, at `at`
  {
    function Time(): int {
      match this
      case Getting(_, t) => t
      case Putting(put) => put.at
      case Purging(_, t) => t
    }
  }

  function Entries<S>(ttl: CacheTTL, ops: seq<Operation<S>>): map<string, Entry<S>> {
    if ops == [] then map[]
    else
      var before := Entries(ttl, ops[..|ops| - 1]);
      match ops[|ops| - 1]
      case Getting(key, t) => AfterGet(before, key, t)
      case Putting(put) => AfterPut(ttl, before, put)
      case Purging(readAt, _) => AfterPurge(before, readAt)
  }

  function PutsOf<S>(ops: seq<Operation<S>>): seq<PutRecord<S>> {
    if ops == [] then []
    else
      var before := PutsOf(ops[..|ops| - 1]);
      if ops[|ops| - 1].Putting? then before + [ops[|ops| - 1].put] else before
  }

  ghost predicate InTimeOrder<S>(ops: seq<Operation<S>>) {
    && (forall i, j :: 0 <= i < j < |ops| ==> ops[i].Time() <= ops[j].Time())
    && (forall i :: 0 <= i < |ops| && ops[i].Purging? ==> ops[i].readAt <= ops[i].at)
  }

  lemma {:induction false} RunsAgree<S>(ttl: CacheTTL, ops: seq<Operation<S>>, t: int)
    requires InTimeOrder(ops) && (ops != [] ==> ops[|ops| - 1].Time() <= t)
    ensures Agrees(ttl, Entries(ttl, ops), PutsOf(ops), t)
  {
    if ops == [] {
      forall k ensures AgreesOn(ttl, Entries(ttl, ops), PutsOf(ops), t, k) {}
    } else {
      var n := |ops| - 1;
      var before, puts, now := Entries(ttl, ops[..n]), PutsOf(ops[..n]), ops[n].Time();
      RunsAgree(ttl, ops[..n], now);
      match ops[n] {
        case Getting(key, at) => GetAgrees(ttl, before, puts, now, key, at);
        case Putting(put) => PutAgrees(ttl, before, puts, now, put);
        case Purging(readAt, at) => PurgeAgrees(ttl, before, puts, now, readAt);
      }
      TickAgrees(ttl, Entries(ttl, ops), PutsOf(ops), now, t);
    }
  }

  /** After any operations, a get at `t` hits exactly when `t` is before the expiry of the newest stored
      put to that key, and returns that put's result marked cached. Gets and purges are invisible: only
      the puts of the run matter. */
  lemma {:induction false} CacheRefinesHistory<S>(ttl: CacheTTL, ops: seq<Operation<S>>, key: string, t: int)
    requires InTimeOrder(ops) && (ops != [] ==> ops[|ops| - 1].Time() <= t)
    ensures Lookup(Entries(ttl, ops), key, t) == Served(ttl, PutsOf(ops), key, t)
  {
    RunsAgree(ttl, ops, t);
    LookupIsServed(ttl, Entries(ttl, ops), PutsOf(ops), t, key, t);
  }

  // ---- The cache itself ----

  class ResultCache<S> {
    const ttl: CacheTTL
    var entries: map<string, Entry<S>>
    /** Every put so far, and the newest clock reading an operation has acted on. */
    ghost var puts: seq<PutRecord<S>>
    ghost var clock: int

    ghost predicate Valid()
      reads this
    {
      Agrees(ttl, entries, puts, clock)
    }

    constructor (ttl: CacheTTL)
      ensures Valid() && this.ttl == ttl && puts == [] && entries == map[]
    {
      this.ttl := ttl;
      entries := map[];
      puts := [];
      clock := 0;
      new;
      forall k ensures AgreesOn(ttl, entries, puts, clock, k) {}
    }

    method Get(key: string, now: int) returns (hit: Option<CheckResult<S>>)
      requires Valid() && clock <= now
      modifies this
      ensures Valid() && clock == now && puts == old(puts)
      ensures hit == Served(ttl, puts, key, now)
      ensures entries == AfterGet(old(entries), key, now)
    {
      LookupIsServed(ttl, entries, puts, clock, key, now);
      GetAgrees(ttl, entries, puts, clock, key, now);
      clock := now;
      if key !in entries {
        return None;
      }
      var entry := entries[key];
      if !(now < entry.expiresAt) {
        entries := entries - {key};
        return None;
      }
      hit := Some(entry.result.(cached := true));
    }

    method Put(key: string, result: CheckResult<S>, now: int)
      requires Valid() && clock <= now
      modifies this
      ensures Valid() && clock == now
      ensures puts == old(puts) + [PutRecord(key, result, now)]
      ensures entries == AfterPut(ttl, old(entries), PutRecord(key, result, now))
    {
      var put := PutRecord(key, result, now);
      PutAgrees(ttl, entries, puts, clock, put);
      puts := puts + [put];
      clock := now;
      var lifetime := ttl.Lifetime(result.availability);
      if lifetime <= 0 {
        return;
      }
      entries := entries[key := Entry(result, now + lifetime)];
    }

    /** `readAt` was read before the lock was taken; other operations may have moved `clock` past it. */
    method Purge(readAt: int)
      requires Valid() && readAt <= clock
      modifies this
      ensures Valid() && clock == old(clock) && puts == old(puts)
      ensures entries == AfterPurge(old(entries), readAt)
    {
      PurgeAgrees(ttl, entries, puts, clock, readAt);
      ghost var was := entries;
      var todo := entries.Keys;
      while todo != {}
        invariant todo <= entries.Keys <= was.Keys
        invariant entries == map key | key in was && (key in todo || readAt < was[key].expiresAt) :: was[key]
        invariant puts == old(puts) && clock == old(clock)
      {
        var key :| key in todo;
        todo := todo - {key};
        if !(readAt < entries[key].expiresAt) {
          entries := entries - {key};
        }
      }
      assert entries == AfterPurge(was, readAt);
    }
  }
}
