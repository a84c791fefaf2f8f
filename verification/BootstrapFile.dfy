/** internal/provider/rdap/bootstrap.go: the registry object, and reading the IANA file. */
module BootstrapFile {
  import opened Basics
  import opened Text
  import opened Bootstrap

  // ---- The object, as one caller sees it ----

  class Registry {
    const ttl: int
    var services: Services
    var fetchedAt: int
    var locked: bool

    constructor (embedded: Services, ttl: int)
      ensures services == embedded && this.ttl == ttl && fetchedAt == 0 && !locked
    {
      services, fetchedAt, locked := embedded, 0, false;
      this.ttl := ttl;
    }

    predicate StaleAt(now: int)
      reads this
    {
      now - fetchedAt > ttl
    }

    /** `fetched` is what the fetch brings, ending at `doneAt`. */
    method TryRefresh(now: int, fetched: Option<Services>, doneAt: int)
      modifies this
      ensures locked == old(locked)
      ensures old(locked) || !old(StaleAt(now)) ==> services == old(services) && fetchedAt == old(fetchedAt)
      ensures !old(locked) && old(StaleAt(now)) ==>
                && services == (if fetched.Some? then fetched.value else old(services))
                && forall t :: StaleAt(t) <==> t > doneAt + if fetched.Some? then ttl else MINUTE
    {
      if locked {
        return;
      }
      locked := true;
      if StaleAt(now) {
        match fetched {
          case Some(map0) =>
            services := map0;
            fetchedAt := doneAt;
          case None =>
            fetchedAt := doneAt - ttl + MINUTE;
        }
      }
      locked := false;
    }

    /** A failed refresh keeps serving the map it had; the answer is always one whole map's. */
    method BaseURLs(tld: string, now: int, fetched: Option<Services>, doneAt: int) returns (urls: seq<string>)
      modifies this
      ensures urls == if tld in services then services[tld] else []
      ensures services == if old(StaleAt(now)) && !old(locked) && fetched.Some? then fetched.value else old(services)
    {
      if StaleAt(now) {
        TryRefresh(now, fetched, doneAt);
      }
      urls := if tld in services then services[tld] else [];
    }
  }

  // ---- sortHTTPSFirst ----

  const HTTPS := "https://"

  predicate IsSecure(url: string) {
    HTTPS <= url
  }

  function Pick(urls: seq<string>, secure: bool): seq<string> {
    if urls == [] then []
    else
      var before := Pick(urls[..|urls| - 1], secure);
      if IsSecure(urls[|urls| - 1]) == secure then before + [urls[|urls| - 1]] else before
  }

  function HttpsFirst(urls: seq<string>): seq<string> {
    Pick(urls, true) + Pick(urls, false)
  }

  lemma PickOneMore(urls: seq<string>, url: string, secure: bool)
    ensures Pick(urls + [url], secure) == if IsSecure(url) == secure then Pick(urls, secure) + [url]
            else Pick(urls, secure)
  {
    assert (urls + [url])[..|urls|] == urls;
  }

  /** Picking keeps only its own kind, so picking again keeps all or nothing. */
  lemma {:induction false} PickIsPure(urls: seq<string>, secure: bool)
    ensures forall u :: u in Pick(urls, secure) ==> IsSecure(u) == secure
    ensures Pick(Pick(urls, secure), secure) == Pick(urls, secure)
    ensures Pick(Pick(urls, secure), !secure) == []
  {
    hide IsSecure;
    if urls != [] {
      var front, last := urls[..|urls| - 1], urls[|urls| - 1];
      PickIsPure(front, secure);
      PickOneMore(Pick(front, secure), last, secure);
      PickOneMore(Pick(front, secure), last, !secure);
    }
  }

  /** The two kinds together are the whole list. */
  lemma {:induction false} PicksAreAll(urls: seq<string>)
    ensures |Pick(urls, true)| + |Pick(urls, false)| == |urls|
    ensures multiset(Pick(urls, true)) + multiset(Pick(urls, false)) == multiset(urls)
  {
    hide IsSecure;
    if urls != [] {
      var front, last := urls[..|urls| - 1], urls[|urls| - 1];
      PicksAreAll(front);
      assert urls == front + [last];
    }
  }

  lemma {:induction false} PickConcat(a: seq<string>, b: seq<string>, secure: bool)
    ensures Pick(a + b, secure) == Pick(a, secure) + Pick(b, secure)
  {
    if b == [] {
      assert a + b == a;
    } else {
      assert (a + b)[..|a + b| - 1] == a + b[..|b| - 1];
      PickConcat(a, b[..|b| - 1], secure);
    }
  }

  /** A stable partition: the same URLs, every https one before every other, each group in its old order. */
  lemma HttpsFirstIsStablePartition(urls: seq<string>)
    ensures multiset(HttpsFirst(urls)) == multiset(urls) && |HttpsFirst(urls)| == |urls|
    ensures forall i, j :: 0 <= i < j < |urls| && "https://" <= HttpsFirst(urls)[j] ==>
              "https://" <= HttpsFirst(urls)[i]
    ensures Pick(HttpsFirst(urls), true) == Pick(urls, true) && Pick(HttpsFirst(urls), false) == Pick(urls, false)
  {
    PickIsPure(urls, true);
    PickIsPure(urls, false);
    PicksAreAll(urls);
    PickConcat(Pick(urls, true), Pick(urls, false), true);
    PickConcat(Pick(urls, true), Pick(urls, false), false);
    var r, n := HttpsFirst(urls), |Pick(urls, true)|;
    forall k | 0 <= k < |r| ensures IsSecure(r[k]) <==> k < n {
      if k < n {
        assert r[k] in Pick(urls, true);
      } else {
        assert r[k] in Pick(urls, false);
      }
    }
  }

  method SortHTTPSFirst(urls: array<string>)
    modifies urls
    ensures urls[..] == HttpsFirst(old(urls[..]))
  {
    var secure: seq<string>, plain: seq<string> := [], [];
    for i := 0 to urls.Length
      invariant urls[..] == old(urls[..])
      invariant secure == Pick(urls[..i], true) && plain == Pick(urls[..i], false)
    {
      assert urls[..i + 1][..i] == urls[..i];
      if IsSecure(urls[i]) {
        secure := secure + [urls[i]];
      } else {
        plain := plain + [urls[i]];
      }
    }
    assert urls[..urls.Length] == urls[..];
    PicksAreAll(urls[..]);
    var all := secure + plain;
    forall i | 0 <= i < urls.Length {
      urls[i] := all[i];
    }
    assert urls[..] == all;
  }

  // ---- parseBootstrap ----

  /** Trimmed, without the final slash, blanks dropped. */
  function CleanURLs(urls: seq<string>): seq<string> {
    if urls == [] then []
    else
      var before, u := CleanURLs(urls[..|urls| - 1]), TrimSpace(urls[|urls| - 1]);
      if u == "" then before else before + [TrimSuffix(u, "/")]
  }

  function TldKey(raw: string): string {
    ToLower(TrimSpace(raw))
  }

  lemma {:induction false} CleanURLsConcat(a: seq<string>, b: seq<string>)
    ensures CleanURLs(a + b) == CleanURLs(a) + CleanURLs(b)
  {
    if b == [] {
      assert a + b == a;
    } else {
      assert (a + b)[..|a + b| - 1] == a + b[..|b| - 1];
      CleanURLsConcat(a, b[..|b| - 1]);
    }
  }

  /** Entry by entry: blanks around a URL and one final slash go, a blank entry goes altogether. */
  lemma CleanURLsByEntry(before: string, url: string, after: string)
    requires Blank(before) && Blank(after)
    requires url != "" && !IsSpace(url[0]) && !IsSpace(url[|url| - 1])
    ensures CleanURLs([before + (url + "/") + after]) == [url]
    ensures url[|url| - 1] != '/' ==> CleanURLs([before + url + after]) == [url]
    ensures CleanURLs([before]) == []
  {
    hide IsSpace;
    SlashIsNoSpace();
    TrimSpaceCore(before, url + "/", after);
    TrimSpaceCore(before, url, after);
    CleanOne(before + (url + "/") + after);
    CleanOne(before + url + after);
    CleanOne(before);
    BlankFront(before);
    assert (url + "/")[|url|..] == "/" && (url + "/")[..|url|] == url;
    assert url[|url| - 1..] == [url[|url| - 1]];
  }

  lemma SlashIsNoSpace()
    ensures !IsSpace('/') && TrimRight("", IsSpace) == ""
  {
  }

  lemma CleanOne(u: string)
    ensures CleanURLs([u]) == if TrimSpace(u) == "" then [] else [TrimSuffix(TrimSpace(u), "/")]
  {
    assert [u][..0] == [];
  }

  /** A TLD of the file is read without the blanks around it, in lower case. */
  lemma TldKeyIs(before: string, tld: string, after: string)
    requires Blank(before) && Blank(after)
    requires tld != "" && !IsSpace(tld[0]) && !IsSpace(tld[|tld| - 1])
    ensures TldKey(before + tld + after) == ToLower(tld) && TldKey(before) == ""
  {
    hide IsSpace;
    TrimSpaceCore(before, tld, after);
    BlankFront(before);
    SlashIsNoSpace();
  }

  type FileEntry = seq<seq<string>>

  predicate Usable(e: FileEntry) {
    |e| >= 2 && CleanURLs(e[1]) != []
  }

  ghost predicate ListsUpTo(e: FileEntry, n: nat, key: string)
    requires |e| >= 1 && n <= |e[0]|
  {
    key != "" && exists i :: 0 <= i < n && TldKey(e[0][i]) == key
  }

  ghost predicate Lists(e: FileEntry, key: string)
    requires |e| >= 1
  {
    ListsUpTo(e, |e[0]|, key)
  }

  /** Entry k is the last usable entry of the file that lists the TLD. */
  ghost predicate LastListing(entries: seq<FileEntry>, k: int, key: string) {
    && 0 <= k < |entries| && Usable(entries[k]) && Lists(entries[k], key)
    && forall j :: k < j < |entries| && Usable(entries[j]) ==> !Lists(entries[j], key)
  }

  /** `urls` are those of the last usable entry listing the TLD, https first. */
  ghost predicate Backed(entries: seq<FileEntry>, key: string, urls: seq<string>) {
    exists k :: LastListing(entries, k, key) && urls == HttpsFirst(CleanURLs(entries[k][1]))
  }

  /** The map holds a TLD exactly when some usable entry lists it, with the URLs of the last such entry,
      https first. */
  ghost predicate IsRegistryOf(services: Services, entries: seq<FileEntry>) {
    && (forall key :: key in services ==> Backed(entries, key, services[key]))
    && (forall k, key :: 0 <= k < |entries| && Usable(entries[k]) && Lists(entries[k], key) ==> key in services)
  }

  lemma BackedStays(entries: seq<FileEntry>, e: FileEntry, key: string, urls: seq<string>)
    requires Backed(entries, key, urls) && (Usable(e) ==> !Lists(e, key))
    ensures Backed(entries + [e], key, urls)
  {
    var k :| LastListing(entries, k, key) && urls == HttpsFirst(CleanURLs(entries[k][1]));
    var all := entries + [e];
    assert all[k] == entries[k];
    assert LastListing(all, k, key);
  }

  lemma BackedByLast(entries: seq<FileEntry>, e: FileEntry, key: string)
    requires Usable(e) && Lists(e, key)
    ensures Backed(entries + [e], key, HttpsFirst(CleanURLs(e[1])))
  {
    var all, n := entries + [e], |entries|;
    assert all[n] == e;
    assert LastListing(all, n, key);
  }

  /** The map after the first n TLDs of one more usable entry. */
  ghost predicate Overlaid(services: Services, base: Services, e: FileEntry, n: nat, urls: seq<string>)
    requires |e| >= 1 && n <= |e[0]|
  {
    && (forall key :: key in services <==> key in base || ListsUpTo(e, n, key))
    && (forall key :: key in services ==> services[key] == if ListsUpTo(e, n, key) then urls else base[key])
  }

  lemma OneMoreTld(services: Services, base: Services, e: FileEntry, n: nat, urls: seq<string>)
    requires |e| >= 1 && n < |e[0]| && Overlaid(services, base, e, n, urls)
    ensures Overlaid(if TldKey(e[0][n]) != "" then services[TldKey(e[0][n]) := urls]
                     else services, base, e, n + 1, urls)
  {
    var k := TldKey(e[0][n]);
    forall key ensures ListsUpTo(e, n + 1, key) <==> ListsUpTo(e, n, key) || (key == k && k != "") {
      if ListsUpTo(e, n, key) {
        var i :| 0 <= i < n && TldKey(e[0][i]) == key;
        assert 0 <= i < n + 1 && TldKey(e[0][i]) == key;
      }
    }
  }

  lemma EntryOverlays(services: Services, base: Services, entries: seq<FileEntry>, e: FileEntry)
    requires IsRegistryOf(base, entries) && Usable(e)
    requires Overlaid(services, base, e, |e[0]|, HttpsFirst(CleanURLs(e[1])))
    ensures IsRegistryOf(services, entries + [e])
  {
    var all := entries + [e];
    forall key | key in services ensures Backed(all, key, services[key]) {
      if Lists(e, key) {
        BackedByLast(entries, e, key);
      } else {
        BackedStays(entries, e, key, base[key]);
      }
    }
    forall k, key | 0 <= k < |all| && Usable(all[k]) && Lists(all[k], key) ensures key in services {
      if k < |entries| {
        assert all[k] == entries[k];
      }
    }
  }

  lemma EntrySkipped(base: Services, entries: seq<FileEntry>, e: FileEntry)
    requires IsRegistryOf(base, entries) && !Usable(e)
    ensures IsRegistryOf(base, entries + [e])
  {
    var all := entries + [e];
    forall key | key in base ensures Backed(all, key, base[key]) {
      BackedStays(entries, e, key, base[key]);
    }
    forall k, key | 0 <= k < |all| && Usable(all[k]) && Lists(all[k], key) ensures key in base {
      assert k < |entries| ==> all[k] == entries[k];
    }
  }

  /** `decoded` is None when the JSON does not parse; a file without services is refused as well. */
  method ParseBootstrap(decoded: Option<seq<FileEntry>>) returns (r: Option<Services>)
    ensures r.None? <==> decoded.None? || decoded.value == []
    ensures r.Some? ==> IsRegistryOf(r.value, decoded.value)
  {
    if decoded.None? || decoded.value == [] {
      return None;
    }
    var entries := decoded.value;
    var services: Services := map[];
    for i := 0 to |entries|
      invariant IsRegistryOf(services, entries[..i])
    {
      assert entries[..i + 1] == entries[..i] + [entries[i]];
      services := ReadEntry(services, entries[i], entries[..i]);
    }
    assert entries[..|entries|] == entries;
    r := Some(services);
  }

  /** One round of the loop over entries. */
  method ReadEntry(base: Services, entry: FileEntry, ghost done: seq<FileEntry>) returns (services: Services)
    requires IsRegistryOf(base, done)
    ensures IsRegistryOf(services, done + [entry])
  {
    if |entry| < 2 {
      EntrySkipped(base, done, entry);
      return base;
    }
    var urls := ReadURLs(entry[1]);
    if urls == [] {
      EntrySkipped(base, done, entry);
      return base;
    }
    urls := SortedURLs(urls);
    services := AddTlds(base, entry, urls);
    EntryOverlays(services, base, done, entry);
  }

  method SortedURLs(cleaned: seq<string>) returns (r: seq<string>)
    ensures r == HttpsFirst(cleaned)
  {
    var urls := new string[|cleaned|](k requires 0 <= k < |cleaned| => cleaned[k]);
    assert urls[..] == cleaned;
    SortHTTPSFirst(urls);
    r := urls[..];
  }

  method AddTlds(base: Services, entry: FileEntry, urls: seq<string>) returns (services: Services)
    requires |entry| >= 1
    ensures Overlaid(services, base, entry, |entry[0]|, urls)
  {
    services := base;
    for j := 0 to |entry[0]|
      invariant Overlaid(services, base, entry, j, urls)
    {
      OneMoreTld(services, base, entry, j, urls);
      var tld := TldKey(entry[0][j]);
      if tld != "" {
        services := services[tld := urls];
      }
    }
  }

  method ReadURLs(raw: seq<string>) returns (urls: seq<string>)
    ensures urls == CleanURLs(raw)
  {
    urls := [];
    for i := 0 to |raw|
      invariant urls == CleanURLs(raw[..i])
    {
      assert raw[..i + 1][..i] == raw[..i];
      var u := TrimSpace(raw[i]);
      if u == "" {
        continue;
      }
      urls := urls + [TrimSuffix(u, "/")];
    }
    assert raw[..|raw|] == raw;
  }
}
