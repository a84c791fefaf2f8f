/** internal/engine/engine.go:63-93 and 238-249: `Check` and `stripRaw` over shared source arrays. Results are
    handed around by value, but their source lists share one backing array. */
module Sharing {
  import opened Basics
  import opened Core
  import opened Caching
  import opened Serving

  type Held = CheckResult<array<ProviderResult>>

  /** Copies the sources, then clears the payloads of the copy: nothing that existed before is written. */
  method StripRaw(result: Held, includeRaw: bool) returns (stripped: Held)
    ensures fresh(stripped.sources)
    ensures stripped == result.(sources := stripped.sources)
    ensures stripped.sources.Length == result.sources.Length
    ensures includeRaw ==> stripped.sources[..] == result.sources[..]
    ensures !includeRaw ==> forall i :: 0 <= i < stripped.sources.Length ==>
              stripped.sources[i].raw == None && stripped.sources[i] == result.sources[i].(raw := None)
  {
    var given := result.sources;
    var sources := new ProviderResult[given.Length](i requires 0 <= i < given.Length reads given => given[i]);
    if !includeRaw {
      for i := 0 to sources.Length
        invariant fresh(sources) && sources.Length == given.Length
        invariant forall k :: 0 <= k < i ==> sources[k] == given[k].(raw := None)
        invariant forall k :: i <= k < sources.Length ==> sources[k] == given[k]
      {
        sources[i] := sources[i].(raw := None);
      }
    }
    stripped := result.(sources := sources);
  }

  /** One caller of `Check`: the name as it spelled it, and whether it wants the payloads. */
  datatype Wish = Wish(input: string, includeRaw: bool)

  /** `answer` is `result` as this caller gets it, when `rows` is what the check left. */
  predicate Answers(answer: Held, result: Held, rows: seq<ProviderResult>, wish: Wish)
    reads answer.sources
  {
    && answer == result.(domain := wish.input, sources := answer.sources)
    && answer.sources.Length == |rows|
    && (wish.includeRaw ==> answer.sources[..] == rows)
    && (!wish.includeRaw ==> forall i :: 0 <= i < |rows| ==>
          answer.sources[i].raw == None && answer.sources[i] == rows[i].(raw := None))
  }

  class Engine {
    const cache: ResultCache<array<ProviderResult>>
    /** The list every shared array was filled with: those in the cache and those of flights. */
    ghost var payloads: map<array<ProviderResult>, seq<ProviderResult>>

    ghost predicate Valid()
      reads this, cache, payloads.Keys
    {
      && cache.Valid()
      && (forall a :: a in payloads ==> a[..] == payloads[a])
      && (forall i :: 0 <= i < |cache.puts| ==> cache.puts[i].result.sources in payloads)
    }

    constructor (ttl: CacheTTL)
      ensures Valid() && payloads == map[] && fresh(cache) && cache.ttl == ttl && cache.puts == []
    {
      cache := new ResultCache(ttl);
      payloads := map[];
    }

    /** The function passed to `group.Do`, run by the leader only: `found` is what its check answers. */
    method Lead(key: string, now: int, found: Held)
      requires Valid() && cache.clock <= now
      modifies this, cache
      ensures Valid() && cache.clock == now && cache.puts == old(cache.puts) + [PutRecord(key, found, now)]
      ensures payloads == old(payloads)[found.sources := found.sources[..]]
      ensures forall a :: a in old(payloads) ==> payloads[a] == old(payloads)[a]
    {
      cache.Put(key, found, now);
      payloads := payloads[found.sources := found.sources[..]];
    }

    /** What the leader, each follower and each reader of the cache do with a result they share, at any later
        time: the shared array keeps its payloads, and the answer has an array of its own. */
    method HandOut(result: Held, wish: Wish) returns (answer: Held)
      requires Valid() && result.sources in payloads
      ensures fresh(answer.sources) && answer.sources !in payloads
      ensures Answers(answer, result, payloads[result.sources], wish)
    {
      answer := StripRaw(result.(domain := wish.input), wish.includeRaw);
    }

    /** One call of `Check` for a parsed name that leads its own flight unless the cache answers. */
    method Check(key: string, wish: Wish, now: int, found: Held) returns (answer: Held)
      requires Valid() && cache.clock <= now
      modifies this, cache
      ensures Valid() && cache.clock == now
      ensures fresh(answer.sources) && answer.sources !in payloads
      ensures forall a :: a in old(payloads) ==> a in payloads && payloads[a] == old(payloads)[a]
      ensures
        match Served(cache.ttl, old(cache.puts), key, now)
        case Some(hit) =>
          cache.puts == old(cache.puts) && hit.sources in payloads && Answers(answer, hit, payloads[hit.sources], wish)
        case None =>
          cache.puts == old(cache.puts) + [PutRecord(key, found, now)]
            && Answers(answer, found, found.sources[..], wish)
    {
      LatestIsNewest(cache.ttl, cache.puts, key);
      var hit := cache.Get(key, now);
      match hit {
        case Some(result) =>
          answer := HandOut(result, wish);
        case None =>
          Lead(key, now, found);
          answer := HandOut(found, wish);
      }
    }

    /** One flight and all its callers, leader first: the result they share is one array, which keeps its
        payloads; every caller gets what it asked for in an array nobody else has. */
    method Fly(key: string, wishes: seq<Wish>, now: int, found: Held) returns (answers: seq<Held>)
      requires Valid() && cache.clock <= now
      modifies this, cache
      ensures Valid() && cache.puts == old(cache.puts) + [PutRecord(key, found, now)]
      ensures found.sources in payloads && payloads[found.sources] == old(found.sources[..])
      ensures forall a :: a in old(payloads) ==> a in payloads && payloads[a] == old(payloads)[a]
      ensures |answers| == |wishes|
      ensures forall i :: 0 <= i < |answers| ==>
                && fresh(answers[i].sources) && answers[i].sources !in payloads
                && Answers(answers[i], found, payloads[found.sources], wishes[i])
      ensures forall i, j :: 0 <= i < j < |answers| ==> answers[i].sources != answers[j].sources
    {
      Lead(key, now, found);
      answers := [];
      for i := 0 to |wishes|
        invariant Valid() && |answers| == i
        invariant payloads == old(payloads)[found.sources := old(found.sources[..])]
        invariant cache.puts == old(cache.puts) + [PutRecord(key, found, now)]
        invariant forall k :: 0 <= k < i ==>
                    && fresh(answers[k].sources) && answers[k].sources !in payloads
                    && Answers(answers[k], found, payloads[found.sources], wishes[k])
        invariant forall j, k :: 0 <= j < k < i ==> answers[j].sources != answers[k].sources
      {
        var answer := HandOut(found, wishes[i]);
        answers := answers + [answer];
      }
    }
  }
}
