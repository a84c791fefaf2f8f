/** internal/engine/suggest.go: `expand`, from base names to deduplicated candidates. */
module Expansion {
  import opened Basics
  import opened Text
  import opened DomainName

  datatype Request = Request(
    names: seq<string>,
    tlds: seq<string>,
    prefixes: seq<string>,
    suffixes: seq<string>,
    hyphenate: bool,
    tldHacks: bool,
    maxCandidates: int,
    onlyAvailable: bool,
    limit: int)

  datatype Candidate = Candidate(domain: string, tldRank: nat, exactBase: bool, hyphenated: bool)

  // ---- normalizeLabel ----

  /** The replacer: drops ' ' and '.', turns '_' into '-'. */
  function Replace(s: string): string {
    if s == "" then ""
    else
      var head := if s[0] == ' ' || s[0] == '.' then "" else if s[0] == '_' then "-" else [s[0]];
      head + Replace(s[1..])
  }

  predicate IsHyphen(c: char) {
    c == '-'
  }

  function NormalizeLabel(input: string): string {
    TrimRight(TrimLeft(Replace(ToLower(TrimSpace(input))), IsHyphen), IsHyphen)
  }

  predicate LabelChar(c: char) {
    c != ' ' && c != '.' && c != '_' && !('A' <= c <= 'Z')
  }

  lemma {:induction false} ReplaceCleans(s: string)
    requires forall i :: 0 <= i < |s| ==> !('A' <= s[i] <= 'Z')
    ensures forall i :: 0 <= i < |Replace(s)| ==> LabelChar(Replace(s)[i])
  {
    if s != "" {
      ReplaceCleans(s[1..]);
    }
  }

  lemma {:induction false} TrimsHyphens(s: string)
    ensures forall c :: c in TrimRight(TrimLeft(s, IsHyphen), IsHyphen) ==> c in s
    ensures
      var t := TrimRight(TrimLeft(s, IsHyphen), IsHyphen);
      t != "" ==> t[0] != '-' && t[|t| - 1] != '-'
  {
    TrimsLeft(s);
    TrimsRight(TrimLeft(s, IsHyphen));
  }

  lemma {:induction false} TrimsLeft(s: string)
    ensures forall c :: c in TrimLeft(s, IsHyphen) ==> c in s
    ensures TrimLeft(s, IsHyphen) != "" ==> TrimLeft(s, IsHyphen)[0] != '-'
  {
    if s != "" && s[0] == '-' {
      TrimsLeft(s[1..]);
    }
  }

  lemma {:induction false} TrimsRight(s: string)
    ensures TrimRight(s, IsHyphen) <= s
    ensures TrimRight(s, IsHyphen) != "" ==> TrimRight(s, IsHyphen)[|TrimRight(s, IsHyphen)| - 1] != '-'
  {
    if s != "" && s[|s| - 1] == '-' {
      TrimsRight(s[..|s| - 1]);
    }
  }

  /** A normalized label has no dot, space, underscore or upper-case letter, and no hyphen at either end. */
  lemma NormalizedLabels(input: string)
    ensures
      var r := NormalizeLabel(input);
      && (forall i :: 0 <= i < |r| ==> LabelChar(r[i]))
      && (r != "" ==> r[0] != '-' && r[|r| - 1] != '-')
  {
    var s := ToLower(TrimSpace(input));
    ReplaceCleans(s);
    TrimsHyphens(Replace(s));
    var r := NormalizeLabel(input);
    forall i | 0 <= i < |r| ensures LabelChar(r[i]) {
      assert r[i] in r;
    }
  }

  lemma {:induction false} ReplaceConcat(a: string, b: string)
    ensures Replace(a + b) == Replace(a) + Replace(b)
  {
    if a == "" {
      assert a + b == b;
    } else {
      assert (a + b)[1..] == a[1..] + b;
      ReplaceConcat(a[1..], b);
    }
  }

  /** Character by character: spaces and dots go, an underscore becomes a hyphen, all else stays. */
  lemma ReplaceByCharacter(c: char)
    ensures Replace([c]) == if c == ' ' || c == '.' then "" else if c == '_' then "-" else [c]
  {
    assert [c][1..] == "";
  }

  lemma {:induction false} ReplaceKeeps(s: string)
    requires forall i :: 0 <= i < |s| ==> LabelChar(s[i])
    ensures Replace(s) == s
  {
    if s != "" {
      ReplaceKeeps(s[1..]);
      assert s == [s[0]] + s[1..];
    }
  }

  lemma LowerKeeps(s: string)
    requires forall i :: 0 <= i < |s| ==> LabelChar(s[i])
    ensures ToLower(s) == s
  {
  }

  /** A clean label survives, whatever blanks stand around it and whatever its case. */
  lemma CleanLabelsSurvive(before: string, spelled: string, after: string, clean: string)
    requires Blank(before) && Blank(after) && ToLower(spelled) == clean
    requires spelled != "" && !IsSpace(spelled[0]) && !IsSpace(spelled[|spelled| - 1])
    requires forall i :: 0 <= i < |clean| ==> LabelChar(clean[i])
    requires clean[0] != '-' && clean[|clean| - 1] != '-'
    ensures NormalizeLabel(before + spelled + after) == clean
  {
    hide IsSpace, ToLower, Replace, TrimSpace, TrimLeft, TrimRight, LabelChar, Blank, LowerChar;
    TrimSpaceCore(before, spelled, after);
    ReplaceKeeps(clean);
    HyphensStay(clean);
  }

  lemma HyphensStay(s: string)
    requires s != "" && s[0] != '-' && s[|s| - 1] != '-'
    ensures TrimRight(TrimLeft(s, IsHyphen), IsHyphen) == s
  {
  }

  // ---- The pure enumeration ----

  /** One label and TLD to try, with its ranking marks. */
  datatype Variant = Variant(head: string, tld: string, rank: nat, exact: bool, hyphenated: bool)

  /** The distinct TLDs of a request, in order of first appearance. */
  function DistinctTlds(tables: Tables, raw: seq<string>): seq<string> {
    if raw == [] then []
    else
      var before := DistinctTlds(tables, raw[..|raw| - 1]);
      match NormalizeTLD(tables, raw[|raw| - 1])
      case Ok(tld) => if tld in before then before else before + [tld]
      case Err(_) => before
  }

  datatype Side = Before | After

  function Glue(base: string, affix: string, joint: string, side: Side): string {
    if side == Before then affix + joint + base else base + joint + affix
  }

  /** The variants of one affix. */
  function OneAffix(base: string, tld: string, rank: nat, raw: string, side: Side, hyphenate: bool): seq<Variant> {
    var affix := NormalizeLabel(raw);
    if affix == "" then []
    else
      [Variant(Glue(base, affix, "", side), tld, rank, false, false)] +
      if hyphenate then [Variant(Glue(base, affix, "-", side), tld, rank, false, true)] else []
  }

  function Affixed(base: string, tld: string, rank: nat, affixes: seq<string>, side: Side,
                   hyphenate: bool): seq<Variant>
  {
    if affixes == [] then []
    else
      Affixed(base, tld, rank, affixes[..|affixes| - 1], side, hyphenate) +
      OneAffix(base, tld, rank, affixes[|affixes| - 1], side, hyphenate)
  }

  function PerTld(req: Request, base: string, tld: string, rank: nat): seq<Variant> {
    [Variant(base, tld, rank, true, false)] +
    Affixed(base, tld, rank, req.prefixes, Before, req.hyphenate) +
    Affixed(base, tld, rank, req.suffixes, After, req.hyphenate)
  }

  function PerTlds(req: Request, base: string, tlds: seq<string>): seq<Variant> {
    if tlds == [] then []
    else PerTlds(req, base, tlds[..|tlds| - 1]) + PerTld(req, base, tlds[|tlds| - 1], |tlds| - 1)
  }

  predicate IsHack(base: string, tld: string) {
    |base| > |tld| && HasSuffix(base, tld) && !HasSuffix(base[..|base| - |tld|], "-")
  }

  /** Splits of the base whose tail is one of the TLDs; `rank` is that of every hack. */
  function Hacks(base: string, tlds: seq<string>, rank: nat): seq<Variant> {
    if tlds == [] then []
    else
      var before, tld := Hacks(base, tlds[..|tlds| - 1], rank), tlds[|tlds| - 1];
      if IsHack(base, tld) then before + [Variant(base[..|base| - |tld|], tld, rank, false, false)] else before
  }

  /** The hacks are exactly the ways to cut the base into a head and one of the TLDs: the head is not empty and
      does not end in a hyphen, and all of them carry the same rank and no marks. */
  lemma {:induction false} HacksAreSplits(base: string, tlds: seq<string>, rank: nat, v: Variant)
    ensures v in Hacks(base, tlds, rank) <==>
            && v.tld in tlds && base == v.head + v.tld
            && v.head != "" && v.head[|v.head| - 1] != '-'
            && v.rank == rank && !v.exact && !v.hyphenated
  {
    if tlds != [] {
      var n := |tlds| - 1;
      HacksAreSplits(base, tlds[..n], rank, v);
      HackIsSplit(base, tlds[n], v.head);
      assert tlds == tlds[..n] + [tlds[n]];
      if IsHack(base, tlds[n]) {
        HackIsSplit(base, tlds[n], base[..|base| - |tlds[n]|]);
      }
    }
  }

  lemma HackIsSplit(base: string, tld: string, head: string)
    ensures IsHack(base, tld) && head == base[..|base| - |tld|] <==>
            base == head + tld && head != "" && head[|head| - 1] != '-'
  {
    if base == head + tld {
      assert base[|head|..] == tld && base[..|head|] == head;
    }
    if IsHack(base, tld) {
      assert base == base[..|base| - |tld|] + tld;
    }
    if head != "" {
      assert head[|head| - 1..] == [head[|head| - 1]];
    }
  }

  function PerName(req: Request, rawName: string, tlds: seq<string>): seq<Variant> {
    var base := NormalizeLabel(rawName);
    if base == "" then []
    else PerTlds(req, base, tlds) + if req.tldHacks then Hacks(base, tlds, |tlds|) else []
  }

  /** Names x distinct TLDs x {base, affixes, hyphenated affixes}, each name followed by its hacks. */
  function Enumerate(req: Request, names: seq<string>, tlds: seq<string>): seq<Variant> {
    if names == [] then []
    else Enumerate(req, names[..|names| - 1], tlds) + PerName(req, names[|names| - 1], tlds)
  }

  // ---- What the enumeration holds ----

  /** The variant glues the normalized affix to the base on this side, with a hyphen if it is marked so. */
  predicate Glues(base: string, raw: string, side: Side, v: Variant) {
    var affix, joint := NormalizeLabel(raw), if v.hyphenated then "-" else "";
    && affix != ""
    && match side case Before => v.head == affix + joint + base case After => v.head == base + joint + affix
  }

  ghost predicate GluesOne(base: string, affixes: seq<string>, side: Side, v: Variant) {
    exists i :: 0 <= i < |affixes| && Glues(base, affixes[i], side, v)
  }

  lemma OneAffixHolds(base: string, tld: string, rank: nat, raw: string, side: Side, hyphenate: bool, v: Variant)
    ensures v in OneAffix(base, tld, rank, raw, side, hyphenate) <==>
            && v.tld == tld && v.rank == rank && !v.exact && (v.hyphenated ==> hyphenate)
            && Glues(base, raw, side, v)
  {
    hide NormalizeLabel;
  }

  lemma GluesOneMore(base: string, affixes: seq<string>, raw: string, side: Side, v: Variant)
    ensures GluesOne(base, affixes + [raw], side, v) <==> GluesOne(base, affixes, side, v) || Glues(base, raw, side, v)
  {
    hide Glues;
    var all, n := affixes + [raw], |affixes|;
    if Glues(base, raw, side, v) {
      assert all[n] == raw;
    }
    if GluesOne(base, affixes, side, v) {
      var i :| 0 <= i < n && Glues(base, affixes[i], side, v);
      assert all[i] == affixes[i];
    }
  }

  lemma {:induction false} AffixedHold(base: string, tld: string, rank: nat, affixes: seq<string>, side: Side,
                                       hyphenate: bool, v: Variant)
    ensures v in Affixed(base, tld, rank, affixes, side, hyphenate) <==>
            && v.tld == tld && v.rank == rank && !v.exact && (v.hyphenated ==> hyphenate)
            && GluesOne(base, affixes, side, v)
  {
    hide OneAffix, GluesOne, Glues;
    if affixes == [] {
      NothingToGlue(base, side, v);
    } else {
      var front, last := affixes[..|affixes| - 1], affixes[|affixes| - 1];
      assert affixes == front + [last];
      AffixedHold(base, tld, rank, front, side, hyphenate, v);
      OneAffixHolds(base, tld, rank, last, side, hyphenate, v);
      GluesOneMore(base, front, last, side, v);
    }
  }

  lemma NothingToGlue(base: string, side: Side, v: Variant)
    ensures !GluesOne(base, [], side, v)
  {
  }

  /** The variants of affixes come in the order of the affixes, each plain before hyphenated. */
  lemma {:induction false} AffixedInOrder(base: string, tld: string, rank: nat, affixes: seq<string>, side: Side,
                                          hyphenate: bool)
    returns (source: seq<nat>)
    ensures
      var vs := Affixed(base, tld, rank, affixes, side, hyphenate);
      && |source| == |vs|
      && (forall i :: 0 <= i < |vs| ==> source[i] < |affixes| && Glues(base, affixes[source[i]], side, vs[i]))
      && (forall i, j :: 0 <= i < j < |vs| ==>
            source[i] < source[j] || (source[i] == source[j] && !vs[i].hyphenated && vs[j].hyphenated))
  {
    hide Glues, OneAffix;
    if affixes == [] {
      source := [];
    } else {
      var n := |affixes| - 1;
      var front := AffixedInOrder(base, tld, rank, affixes[..n], side, hyphenate);
      var own := OneAffix(base, tld, rank, affixes[n], side, hyphenate);
      forall v | v in own ensures Glues(base, affixes[n], side, v) {
        OneAffixHolds(base, tld, rank, affixes[n], side, hyphenate, v);
      }
      PlainFirst(base, tld, rank, affixes[n], side, hyphenate);
      source := front + seq(|own|, _ => n);
    }
  }

  lemma PlainFirst(base: string, tld: string, rank: nat, raw: string, side: Side, hyphenate: bool)
    ensures
      var vs := OneAffix(base, tld, rank, raw, side, hyphenate);
      |vs| <= 2 && (vs != [] ==> !vs[0].hyphenated) && (|vs| == 2 ==> vs[1].hyphenated)
  {
  }

  /** The base itself, or an affix of the request glued to it, hyphenated only if the request says so. */
  ghost predicate ShapedBy(req: Request, base: string, v: Variant) {
    || (v.head == base && v.exact && !v.hyphenated)
    || (!v.exact && (v.hyphenated ==> req.hyphenate)
        && (GluesOne(base, req.prefixes, Before, v) || GluesOne(base, req.suffixes, After, v)))
  }

  lemma PerTldHolds(req: Request, base: string, tld: string, rank: nat, v: Variant)
    ensures v in PerTld(req, base, tld, rank) <==> v.tld == tld && v.rank == rank && ShapedBy(req, base, v)
  {
    hide Affixed, GluesOne;
    AffixedHold(base, tld, rank, req.prefixes, Before, req.hyphenate, v);
    AffixedHold(base, tld, rank, req.suffixes, After, req.hyphenate, v);
    assert v in [Variant(base, tld, rank, true, false)] <==> v == Variant(base, tld, rank, true, false);
  }

  lemma {:induction false} PerTldsHold(req: Request, base: string, tlds: seq<string>, v: Variant)
    ensures v in PerTlds(req, base, tlds) <==> v.rank < |tlds| && v.tld == tlds[v.rank] && ShapedBy(req, base, v)
  {
    hide PerTld, ShapedBy;
    if tlds != [] {
      var n := |tlds| - 1;
      PerTldsHold(req, base, tlds[..n], v);
      PerTldHolds(req, base, tlds[n], n, v);
    }
  }

  /** A variant of one name: its base or an affixed form under the TLD of its rank, or a split of the base. */
  ghost predicate VariantOf(req: Request, rawName: string, tlds: seq<string>, v: Variant) {
    var base := NormalizeLabel(rawName);
    && base != ""
    && (|| (v.rank < |tlds| && v.tld == tlds[v.rank] && ShapedBy(req, base, v))
        || (&& req.tldHacks && v.tld in tlds && base == v.head + v.tld && v.head != "" && v.head[|v.head| - 1] != '-'
            && v.rank == |tlds| && !v.exact && !v.hyphenated))
  }

  /** Under one TLD the base comes first, then the prefixed forms, then the suffixed ones. */
  lemma PerTldInOrder(req: Request, base: string, tld: string, rank: nat) returns (m: nat)
    ensures
      var vs := PerTld(req, base, tld, rank);
      && 0 < m <= |vs| && vs[0] == Variant(base, tld, rank, true, false)
      && (forall i :: 0 < i < m ==> !vs[i].exact && GluesOne(base, req.prefixes, Before, vs[i]))
      && (forall i :: m <= i < |vs| ==> !vs[i].exact && GluesOne(base, req.suffixes, After, vs[i]))
      && vs[1..m] == Affixed(base, tld, rank, req.prefixes, Before, req.hyphenate)
      && vs[m..] == Affixed(base, tld, rank, req.suffixes, After, req.hyphenate)
  {
    hide Affixed, GluesOne;
    var vs := PerTld(req, base, tld, rank);
    m := 1 + |Affixed(base, tld, rank, req.prefixes, Before, req.hyphenate)|;
    forall i | 0 < i < m ensures !vs[i].exact && GluesOne(base, req.prefixes, Before, vs[i]) {
      assert vs[i] in vs[1..m];
      AffixedHold(base, tld, rank, req.prefixes, Before, req.hyphenate, vs[i]);
    }
    forall i | m <= i < |vs| ensures !vs[i].exact && GluesOne(base, req.suffixes, After, vs[i]) {
      assert vs[i] in vs[m..];
      AffixedHold(base, tld, rank, req.suffixes, After, req.hyphenate, vs[i]);
    }
  }

  lemma PerTldBase(req: Request, base: string, tld: string, rank: nat)
    ensures forall i :: 0 <= i < |PerTld(req, base, tld, rank)| ==>
              PerTld(req, base, tld, rank)[i].rank == rank && (PerTld(req, base, tld, rank)[i].exact <==> i == 0)
  {
    hide PerTld, ShapedBy;
    var vs := PerTld(req, base, tld, rank);
    var m := PerTldInOrder(req, base, tld, rank);
    forall i | 0 <= i < |vs| ensures vs[i].rank == rank && (vs[i].exact <==> i == 0) {
      assert vs[i] in vs;
      PerTldHolds(req, base, tld, rank, vs[i]);
    }
  }

  /** Ranks ascend, and under each rank the plain base comes first. */
  predicate RanksInOrder(vs: seq<Variant>) {
    forall i, j :: 0 <= i < j < |vs| ==> vs[i].rank <= vs[j].rank && (vs[j].exact ==> vs[i].rank < vs[j].rank)
  }

  lemma JoinInOrder(a: seq<Variant>, b: seq<Variant>, n: nat)
    requires RanksInOrder(a) && RanksInOrder(b)
    requires forall i :: 0 <= i < |a| ==> a[i].rank < n
    requires forall i :: 0 <= i < |b| ==> b[i].rank == n
    ensures RanksInOrder(a + b) && forall i :: 0 <= i < |a + b| ==> (a + b)[i].rank <= n
  {
  }

  lemma {:induction false} PerTldsInOrder(req: Request, base: string, tlds: seq<string>)
    ensures RanksInOrder(PerTlds(req, base, tlds))
    ensures forall i :: 0 <= i < |PerTlds(req, base, tlds)| ==> PerTlds(req, base, tlds)[i].rank < |tlds|
  {
    hide PerTld;
    if tlds != [] {
      var n := |tlds| - 1;
      PerTldsInOrder(req, base, tlds[..n]);
      PerTldBase(req, base, tlds[n], n);
      JoinInOrder(PerTlds(req, base, tlds[..n]), PerTld(req, base, tlds[n], n), n);
    }
  }

  /** Hacks come in the order of their TLDs. */
  lemma {:induction false} HacksInOrder(base: string, tlds: seq<string>, rank: nat) returns (source: seq<nat>)
    ensures
      var vs := Hacks(base, tlds, rank);
      && |source| == |vs|
      && (forall i :: 0 <= i < |vs| ==> source[i] < |tlds| && vs[i].tld == tlds[source[i]] && vs[i].rank == rank
                                        && !vs[i].exact)
      && (forall i, j :: 0 <= i < j < |vs| ==> source[i] < source[j])
  {
    hide IsHack;
    if tlds == [] {
      source := [];
    } else {
      var n := |tlds| - 1;
      source := HacksInOrder(base, tlds[..n], rank);
      if IsHack(base, tlds[n]) {
        source := source + [n];
      }
    }
  }

  /** The variants of one name come TLD by TLD, the plain base first under each, and the hacks last. */
  lemma PerNameInOrder(req: Request, rawName: string, tlds: seq<string>)
    ensures RanksInOrder(PerName(req, rawName, tlds))
  {
    hide PerTlds, Hacks, NormalizeLabel;
    var base := NormalizeLabel(rawName);
    PerTldsInOrder(req, base, tlds);
    var source := HacksInOrder(base, tlds, |tlds|);
    JoinInOrder(PerTlds(req, base, tlds), Hacks(base, tlds, |tlds|), |tlds|);
    assert PerTlds(req, base, tlds) + [] == PerTlds(req, base, tlds);
  }

  /** The enumeration holds exactly the variants of the names. */
  lemma {:induction false} EnumerateHolds(req: Request, names: seq<string>, tlds: seq<string>, v: Variant)
    ensures v in Enumerate(req, names, tlds) <==> exists n :: 0 <= n < |names| && VariantOf(req, names[n], tlds, v)
  {
    hide PerName, VariantOf;
    if names != [] {
      var n := |names| - 1;
      EnumerateHolds(req, names[..n], tlds, v);
      PerNameHolds(req, names[n], tlds, v);
      if k :| 0 <= k < n && VariantOf(req, names[..n][k], tlds, v) {
        assert VariantOf(req, names[k], tlds, v);
      }
      if k :| 0 <= k < |names| && VariantOf(req, names[k], tlds, v) {
        assert k < n ==> names[..n][k] == names[k];
      }
    }
  }

  lemma PerNameHolds(req: Request, rawName: string, tlds: seq<string>, v: Variant)
    ensures v in PerName(req, rawName, tlds) <==> VariantOf(req, rawName, tlds, v)
  {
    hide PerTlds, Hacks, ShapedBy, NormalizeLabel;
    var base := NormalizeLabel(rawName);
    PerTldsHold(req, base, tlds, v);
    HacksAreSplits(base, tlds, |tlds|, v);
  }

  // ---- First-occurrence deduplication ----

  /** The candidate a variant stands for, if it parses to a directly registrable name. */
  function Accept(tables: Tables, v: Variant): Option<Candidate> {
    match Parse(tables, v.head + "." + v.tld)
    case Ok(name) => if name.Registrable() then Some(Candidate(name.ascii, v.rank, v.exact, v.hyphenated)) else None
    case Err(_) => None
  }

  predicate Yields(tables: Tables, v: Variant, domain: string) {
    Accept(tables, v).Some? && Accept(tables, v).value.domain == domain
  }

  /** Some variant of the list gives this domain. */
  ghost predicate Yielded(tables: Tables, vs: seq<Variant>, domain: string) {
    exists i :: 0 <= i < |vs| && Yields(tables, vs[i], domain)
  }

  /** Variant i is accepted and no earlier one gives its domain. */
  ghost predicate IsFirst(tables: Tables, vs: seq<Variant>, i: nat)
    requires i < |vs|
  {
    Accept(tables, vs[i]).Some? && !Yielded(tables, vs[..i], Accept(tables, vs[i]).value.domain)
  }

  /** The accepted variants that are the first of their domain, in order. */
  ghost function Firsts(tables: Tables, vs: seq<Variant>): seq<Candidate> {
    if vs == [] then []
    else
      Firsts(tables, vs[..|vs| - 1]) +
      if IsFirst(tables, vs, |vs| - 1) then [Accept(tables, vs[|vs| - 1]).value] else []
  }

  predicate HasDomain(cs: seq<Candidate>, domain: string) {
    exists i :: 0 <= i < |cs| && cs[i].domain == domain
  }

  ghost predicate DistinctDomains(cs: seq<Candidate>) {
    forall i, j :: 0 <= i < j < |cs| ==> cs[i].domain != cs[j].domain
  }

  lemma YieldedOneMore(tables: Tables, vs: seq<Variant>, v: Variant, d: string)
    ensures Yielded(tables, vs + [v], d) <==> Yielded(tables, vs, d) || Yields(tables, v, d)
  {
    var all, n := vs + [v], |vs|;
    if Yields(tables, v, d) {
      assert all[n] == v;
    }
    if Yielded(tables, vs, d) {
      var i :| 0 <= i < n && Yields(tables, vs[i], d);
      assert all[i] == vs[i];
    }
  }

  lemma FirstsOneMore(tables: Tables, vs: seq<Variant>, v: Variant)
    ensures Firsts(tables, vs + [v]) ==
            match Accept(tables, v)
            case Some(c) => if Yielded(tables, vs, c.domain) then Firsts(tables, vs) else Firsts(tables, vs) + [c]
            case None => Firsts(tables, vs)
  {
    assert (vs + [v])[..|vs|] == vs;
  }

  lemma HasDomainOneMore(cs: seq<Candidate>, c: Candidate, d: string)
    ensures HasDomain(cs + [c], d) <==> HasDomain(cs, d) || c.domain == d
  {
    if c.domain == d {
      assert (cs + [c])[|cs|] == c;
    }
    if HasDomain(cs, d) {
      var i :| 0 <= i < |cs| && cs[i].domain == d;
      assert (cs + [c])[i] == cs[i];
    }
  }

  /** A domain is among the candidates exactly when some variant yields it, and no domain comes twice. */
  lemma {:induction false} FirstsAreDistinct(tables: Tables, vs: seq<Variant>)
    ensures DistinctDomains(Firsts(tables, vs)) && |Firsts(tables, vs)| <= |vs|
    ensures forall d :: HasDomain(Firsts(tables, vs), d) <==> Yielded(tables, vs, d)
  {
    hide Accept, Yielded, HasDomain, Firsts;
    if vs == [] {
      NothingFirst(tables);
    } else {
      var front, last := vs[..|vs| - 1], vs[|vs| - 1];
      assert vs == front + [last];
      FirstsAreDistinct(tables, front);
      FirstsOneMore(tables, front, last);
      var before := Firsts(tables, front);
      if Accept(tables, last).Some? {
        NewDomainStaysDistinct(before, Accept(tables, last).value);
      }
      forall d ensures HasDomain(Firsts(tables, vs), d) <==> Yielded(tables, vs, d) {
        YieldedOneMore(tables, front, last, d);
        if Accept(tables, last).Some? {
          HasDomainOneMore(before, Accept(tables, last).value, d);
        }
      }
    }
  }

  lemma NothingFirst(tables: Tables)
    ensures Firsts(tables, []) == [] && forall d :: !HasDomain([], d) && !Yielded(tables, [], d)
  {
  }

  lemma NewDomainStaysDistinct(cs: seq<Candidate>, c: Candidate)
    requires DistinctDomains(cs)
    ensures !HasDomain(cs, c.domain) ==> DistinctDomains(cs + [c])
  {
  }

  /** More variants only append candidates: those already there keep their place and marks. */
  lemma {:induction false} FirstsExtend(tables: Tables, vs: seq<Variant>, ws: seq<Variant>)
    ensures Firsts(tables, vs) <= Firsts(tables, vs + ws)
    decreases |ws|
  {
    if ws == [] {
      assert vs + ws == vs;
    } else {
      assert (vs + ws)[..|vs + ws| - 1] == vs + ws[..|ws| - 1];
      FirstsExtend(tables, vs, ws[..|ws| - 1]);
    }
  }

  /** A kept candidate carries the marks of the first variant of its domain. */
  lemma FirstsCarryFirstMarks(tables: Tables, vs: seq<Variant>, i: nat)
    requires i < |vs| && IsFirst(tables, vs, i)
    ensures Accept(tables, vs[i]).value in Firsts(tables, vs)
  {
    hide Accept, Yielded, Firsts;
    var front, c := vs[..i + 1], Accept(tables, vs[i]).value;
    assert front == vs[..i] + [vs[i]] && vs == front + vs[i + 1..];
    FirstsOneMore(tables, vs[..i], vs[i]);
    FirstsExtend(tables, front, vs[i + 1..]);
    var kept := Firsts(tables, front);
    assert kept[|kept| - 1] == c;
    assert Firsts(tables, vs)[|kept| - 1] == c;
  }

  // ---- The program's loops ----

  class Expander {
    const tables: Tables
    var seen: set<string>
    var candidates: seq<Candidate>
    /** Everything `add` was called with. */
    ghost var tried: seq<Variant>

    ghost predicate Valid()
      reads this
    {
      && candidates == Firsts(tables, tried)
      && forall d :: d in seen <==> HasDomain(candidates, d)
    }

    constructor (tables: Tables)
      ensures Valid() && tried == [] && this.tables == tables
    {
      this.tables := tables;
      seen, candidates, tried := {}, [], [];
    }

    method Add(v: Variant)
      requires Valid()
      modifies this
      ensures Valid() && tried == old(tried) + [v]
    {
      hide Parse, Firsts, Yielded, HasDomain;
      FirstsAreDistinct(tables, tried);
      FirstsOneMore(tables, tried, v);
      tried := tried + [v];
      match Parse(tables, v.head + "." + v.tld) {
        case Err(_) =>
        case Ok(name) =>
          if name.Registrable() && name.ascii !in seen {
            var c := Candidate(name.ascii, v.rank, v.exact, v.hyphenated);
            forall d ensures HasDomain(candidates + [c], d) <==> HasDomain(candidates, d) || c.domain == d {
              HasDomainOneMore(candidates, c, d);
            }
            seen := seen + {name.ascii};
            candidates := candidates + [c];
          }
      }
    }
  }

  method NormalizeTLDs(tables: Tables, raw: seq<string>) returns (tlds: seq<string>)
    ensures tlds == DistinctTlds(tables, raw)
  {
    tlds := [];
    for i := 0 to |raw|
      invariant tlds == DistinctTlds(tables, raw[..i])
    {
      assert raw[..i + 1][..i] == raw[..i];
      match NormalizeTLD(tables, raw[i]) {
        case Err(_) =>
        case Ok(tld) =>
          if tld !in tlds {
            tlds := tlds + [tld];
          }
      }
    }
    assert raw[..|raw|] == raw;
  }

  lemma NoAffixes(base: string, tld: string, rank: nat, side: Side, hyphenate: bool)
    ensures Affixed(base, tld, rank, [], side, hyphenate) == []
  {
  }

  lemma AffixedOneMore(base: string, tld: string, rank: nat, affixes: seq<string>, i: nat, side: Side, hyphenate: bool)
    requires i < |affixes|
    ensures Affixed(base, tld, rank, affixes[..i + 1], side, hyphenate) ==
            Affixed(base, tld, rank, affixes[..i], side, hyphenate) +
            OneAffix(base, tld, rank, affixes[i], side, hyphenate)
  {
    assert affixes[..i + 1][..i] == affixes[..i];
  }

  method AddAffixed(e: Expander, base: string, tld: string, rank: nat, affixes: seq<string>, side: Side,
                    hyphenate: bool)
    requires e.Valid()
    modifies e
    ensures e.Valid() && e.tried == old(e.tried) + Affixed(base, tld, rank, affixes, side, hyphenate)
  {
    hide e.Valid, NormalizeLabel, Glue, Affixed;
    NoAffixes(base, tld, rank, side, hyphenate);
    for i := 0 to |affixes|
      invariant e.Valid() && e.tried == old(e.tried) + Affixed(base, tld, rank, affixes[..i], side, hyphenate)
    {
      AffixedOneMore(base, tld, rank, affixes, i, side, hyphenate);
      var affix := NormalizeLabel(affixes[i]);
      if affix == "" {
        continue;
      }
      e.Add(Variant(Glue(base, affix, "", side), tld, rank, false, false));
      if hyphenate {
        e.Add(Variant(Glue(base, affix, "-", side), tld, rank, false, true));
      }
    }
    assert affixes[..|affixes|] == affixes;
  }

  method AddTlds(e: Expander, req: Request, base: string, tlds: seq<string>)
    requires e.Valid()
    modifies e
    ensures e.Valid() && e.tried == old(e.tried) + PerTlds(req, base, tlds)
  {
    hide e.Valid, Affixed;
    for rank := 0 to |tlds|
      invariant e.Valid() && e.tried == old(e.tried) + PerTlds(req, base, tlds[..rank])
    {
      assert tlds[..rank + 1][..rank] == tlds[..rank];
      e.Add(Variant(base, tlds[rank], rank, true, false));
      AddAffixed(e, base, tlds[rank], rank, req.prefixes, Before, req.hyphenate);
      AddAffixed(e, base, tlds[rank], rank, req.suffixes, After, req.hyphenate);
    }
    assert tlds[..|tlds|] == tlds;
  }

  method TldHacks(base: string, tlds: seq<string>) returns (hacks: seq<Variant>)
    ensures hacks == Hacks(base, tlds, |tlds|)
  {
    hacks := [];
    for i := 0 to |tlds|
      invariant hacks == Hacks(base, tlds[..i], |tlds|)
    {
      assert tlds[..i + 1][..i] == tlds[..i];
      var tld := tlds[i];
      if |base| <= |tld| || !HasSuffix(base, tld) {
        continue;
      }
      var head := base[..|base| - |tld|];
      if HasSuffix(head, "-") {
        continue;
      }
      hacks := hacks + [Variant(head, tld, |tlds|, false, false)];
    }
    assert tlds[..|tlds|] == tlds;
  }

  method AddAll(e: Expander, vs: seq<Variant>)
    requires e.Valid()
    modifies e
    ensures e.Valid() && e.tried == old(e.tried) + vs
  {
    hide e.Valid;
    for i := 0 to |vs|
      invariant e.Valid() && e.tried == old(e.tried) + vs[..i]
    {
      e.Add(vs[i]);
    }
  }

  /** One round of the loop over names. */
  method AddName(e: Expander, req: Request, rawName: string, tlds: seq<string>)
    requires e.Valid()
    modifies e
    ensures e.Valid() && e.tried == old(e.tried) + PerName(req, rawName, tlds)
  {
    hide e.Valid, NormalizeLabel, PerTlds, Hacks;
    var base := NormalizeLabel(rawName);
    if base == "" {
      return;
    }
    AddTlds(e, req, base, tlds);
    if req.tldHacks {
      var hacks := TldHacks(base, tlds);
      AddAll(e, hacks);
    }
  }

  lemma ValidCandidates(e: Expander)
    requires e.Valid()
    ensures e.candidates == Firsts(e.tables, e.tried)
  {
  }

  method Expand(tables: Tables, req: Request) returns (candidates: seq<Candidate>)
    ensures candidates == Firsts(tables, Enumerate(req, req.names, DistinctTlds(tables, req.tlds)))
  {
    hide Expander.Valid, PerName, DistinctTlds, Firsts;
    var tlds := NormalizeTLDs(tables, req.tlds);
    var e := new Expander(tables);
    for i := 0 to |req.names|
      invariant e.Valid() && e.tables == tables && fresh(e)
      invariant e.tried == Enumerate(req, req.names[..i], tlds)
    {
      assert req.names[..i + 1][..i] == req.names[..i];
      AddName(e, req, req.names[i], tlds);
    }
    assert req.names[..|req.names|] == req.names;
    ValidCandidates(e);
    candidates := e.candidates;
  }

  // ---- What expansion promises ----

  ghost function Candidates(tables: Tables, req: Request): seq<Candidate> {
    Firsts(tables, Enumerate(req, req.names, DistinctTlds(tables, req.tlds)))
  }

  /** Every candidate stands for a variant of one of the names: its domain is the ASCII form of that head under
      that TLD, directly registrable, and its rank and marks are the variant's. */
  lemma CandidatesAreVariants(tables: Tables, req: Request, c: Candidate) returns (n: nat, v: Variant)
    requires c in Candidates(tables, req)
    ensures n < |req.names| && VariantOf(req, req.names[n], DistinctTlds(tables, req.tlds), v)
    ensures
      var parsed := Parse(tables, v.head + "." + v.tld);
      && parsed.Ok? && parsed.value.Registrable() && parsed.value.ascii == c.domain
      && c.tldRank == v.rank && c.exactBase == v.exact && c.hyphenated == v.hyphenated
  {
    hide Parse, Firsts, Enumerate, VariantOf, DistinctTlds;
    var tlds := DistinctTlds(tables, req.tlds);
    var vs := Enumerate(req, req.names, tlds);
    v := FirstsComeFrom(tables, vs, c);
    EnumerateHolds(req, req.names, tlds, v);
    n :| 0 <= n < |req.names| && VariantOf(req, req.names[n], tlds, v);
  }

  lemma {:induction false} FirstsComeFrom(tables: Tables, vs: seq<Variant>, c: Candidate) returns (v: Variant)
    requires c in Firsts(tables, vs)
    ensures v in vs && Accept(tables, v) == Some(c)
  {
    hide Accept, Yielded;
    var front, last := vs[..|vs| - 1], vs[|vs| - 1];
    assert vs == front + [last];
    if c in Firsts(tables, front) {
      v := FirstsComeFrom(tables, front, c);
    } else {
      v := last;
    }
  }

  /** Every candidate's domain is the ASCII form of an accepted name. */
  lemma CandidatesAreAccepted(tables: Tables, req: Request, c: Candidate) returns (text: string)
    requires c in Candidates(tables, req)
    ensures Parse(tables, text).Ok? && Parse(tables, text).value.ascii == c.domain
  {
    hide Parse, Firsts, Enumerate;
    var vs := Enumerate(req, req.names, DistinctTlds(tables, req.tlds));
    FirstsAreDistinct(tables, vs);
    assert HasDomain(Firsts(tables, vs), c.domain);
    var i :| 0 <= i < |vs| && Yields(tables, vs[i], c.domain);
    text := vs[i].head + "." + vs[i].tld;
  }

  /** Appending names to a request only appends candidates. */
  lemma {:induction false} MoreNamesAppend(tables: Tables, req: Request, more: seq<string>)
    ensures Candidates(tables, req) <= Candidates(tables, req.(names := req.names + more))
  {
    var tlds := DistinctTlds(tables, req.tlds);
    var vs := EnumerateExtends(req, req.names, more, tlds);
    SameVariants(req, req.(names := req.names + more), req.names + more, tlds);
    FirstsExtend(tables, Enumerate(req, req.names, tlds), vs);
  }

  lemma {:induction false} EnumerateExtends(req: Request, names: seq<string>, more: seq<string>, tlds: seq<string>)
    returns (vs: seq<Variant>)
    ensures Enumerate(req, names + more, tlds) == Enumerate(req, names, tlds) + vs
  {
    hide PerName;
    if more == [] {
      assert names + more == names;
      vs := [];
    } else {
      var n := |more| - 1;
      assert (names + more)[..|names + more| - 1] == names + more[..n];
      var front := EnumerateExtends(req, names, more[..n], tlds);
      vs := front + PerName(req, more[n], tlds);
    }
  }

  /** The requests ask for the same affixes, in the same way. */
  predicate SameOptions(a: Request, b: Request) {
    a.prefixes == b.prefixes && a.suffixes == b.suffixes && a.hyphenate == b.hyphenate && a.tldHacks == b.tldHacks
  }

  /** The enumeration looks at these options only, not at the request's names, limits or filter. */
  lemma {:induction false} SameVariants(a: Request, b: Request, names: seq<string>, tlds: seq<string>)
    requires SameOptions(a, b)
    ensures Enumerate(a, names, tlds) == Enumerate(b, names, tlds)
  {
    hide NormalizeLabel, PerTlds, Hacks;
    if names != [] {
      SameVariants(a, b, names[..|names| - 1], tlds);
      var base := NormalizeLabel(names[|names| - 1]);
      SameTlds(a, b, base, tlds);
    }
  }

  lemma {:induction false} SameTlds(a: Request, b: Request, base: string, tlds: seq<string>)
    requires SameOptions(a, b)
    ensures PerTlds(a, base, tlds) == PerTlds(b, base, tlds)
  {
    hide Affixed;
    if tlds != [] {
      SameTlds(a, b, base, tlds[..|tlds| - 1]);
    }
  }

  // ---- How many there can be ----

  /** Variants per affix: one, or two when hyphenating. */
  function PerAffix(req: Request): nat {
    if req.hyphenate then 2 else 1
  }

  function Affixes(req: Request): nat {
    |req.prefixes| + |req.suffixes|
  }

  lemma OneAffixCount(base: string, tld: string, rank: nat, raw: string, side: Side, req: Request)
    ensures |OneAffix(base, tld, rank, raw, side, req.hyphenate)| <= PerAffix(req)
  {
  }

  lemma {:induction false} AffixedCount(base: string, tld: string, rank: nat, affixes: seq<string>, side: Side,
                                        req: Request)
    ensures |Affixed(base, tld, rank, affixes, side, req.hyphenate)| <= PerAffix(req) * |affixes|
  {
    hide OneAffix, PerAffix;
    if affixes != [] {
      var n := |affixes| - 1;
      AffixedCount(base, tld, rank, affixes[..n], side, req);
      OneAffixCount(base, tld, rank, affixes[n], side, req);
      assert PerAffix(req) * (n + 1) == PerAffix(req) * n + PerAffix(req);
    }
  }

  lemma {:induction false} PerTldsCount(req: Request, base: string, tlds: seq<string>)
    ensures |PerTlds(req, base, tlds)| <= |tlds| * (1 + PerAffix(req) * Affixes(req))
  {
    hide Affixed;
    if tlds != [] {
      var n := |tlds| - 1;
      PerTldsCount(req, base, tlds[..n]);
      AffixedCount(base, tlds[n], n, req.prefixes, Before, req);
      AffixedCount(base, tlds[n], n, req.suffixes, After, req);
      var k := PerAffix(req);
      assert k * |req.prefixes| + k * |req.suffixes| == k * Affixes(req);
      assert (n + 1) * (1 + k * Affixes(req)) == n * (1 + k * Affixes(req)) + (1 + k * Affixes(req));
    }
  }

  lemma {:induction false} HacksCount(base: string, tlds: seq<string>, rank: nat)
    ensures |Hacks(base, tlds, rank)| <= |tlds|
  {
    if tlds != [] {
      HacksCount(base, tlds[..|tlds| - 1], rank);
    }
  }

  lemma {:induction false} EnumerateCount(req: Request, names: seq<string>, tlds: seq<string>)
    ensures |Enumerate(req, names, tlds)| <= |names| * (|tlds| * (2 + PerAffix(req) * Affixes(req)))
  {
    if names != [] {
      var n, base := |names| - 1, NormalizeLabel(names[|names| - 1]);
      EnumerateCount(req, names[..n], tlds);
      PerTldsCount(req, base, tlds);
      HacksCount(base, tlds, |tlds|);
      var each := 1 + PerAffix(req) * Affixes(req);
      assert |tlds| * (each + 1) == |tlds| * each + |tlds|;
      assert (n + 1) * (|tlds| * (each + 1)) == n * (|tlds| * (each + 1)) + |tlds| * (each + 1);
    }
  }

  /** Some entry of the list normalizes to this TLD. */
  ghost predicate Named(tables: Tables, raw: seq<string>, tld: string) {
    exists i :: 0 <= i < |raw| && NormalizeTLD(tables, raw[i]) == Ok(tld)
  }

  lemma NothingNamed(tables: Tables)
    ensures forall tld :: !Named(tables, [], tld)
  {
  }

  lemma NamedOneMore(tables: Tables, raw: seq<string>, last: string, tld: string)
    ensures Named(tables, raw + [last], tld) <==> Named(tables, raw, tld) || NormalizeTLD(tables, last) == Ok(tld)
  {
    hide NormalizeTLD;
    var all, n := raw + [last], |raw|;
    if NormalizeTLD(tables, last) == Ok(tld) {
      assert all[n] == last;
    }
    if Named(tables, raw, tld) {
      var i :| 0 <= i < n && NormalizeTLD(tables, raw[i]) == Ok(tld);
      assert all[i] == raw[i];
    }
  }

  /** The distinct TLDs are pairwise different and exactly those the request names. */
  lemma {:induction false} DistinctTldsAreDistinct(tables: Tables, raw: seq<string>)
    ensures |DistinctTlds(tables, raw)| <= |raw|
    ensures forall i, j :: 0 <= i < j < |DistinctTlds(tables, raw)| ==>
              DistinctTlds(tables, raw)[i] != DistinctTlds(tables, raw)[j]
    ensures forall tld :: tld in DistinctTlds(tables, raw) <==> Named(tables, raw, tld)
  {
    hide NormalizeTLD, Named;
    if raw == [] {
      NothingNamed(tables);
    } else {
      var front, last := raw[..|raw| - 1], raw[|raw| - 1];
      assert raw == front + [last];
      DistinctTldsAreDistinct(tables, front);
      forall tld ensures tld in DistinctTlds(tables, raw) <==> Named(tables, raw, tld) {
        NamedOneMore(tables, front, last, tld);
      }
    }
  }

  /** More TLDs in a request only append to the distinct ones: the first appearance fixes the rank. */
  lemma {:induction false} DistinctTldsExtend(tables: Tables, raw: seq<string>, more: seq<string>)
    ensures DistinctTlds(tables, raw) <= DistinctTlds(tables, raw + more)
    decreases |more|
  {
    hide NormalizeTLD;
    if more == [] {
      assert raw + more == raw;
    } else {
      assert (raw + more)[..|raw + more| - 1] == raw + more[..|more| - 1];
      DistinctTldsExtend(tables, raw, more[..|more| - 1]);
    }
  }

  /** The candidates: pairwise distinct domains, exactly those some variant of the enumeration yields, and
      at most names x TLDs x (2 + (1 + h) x affixes) of them. */
  lemma ExpansionIsSound(tables: Tables, req: Request)
    ensures
      var cs, vs := Candidates(tables, req), Enumerate(req, req.names, DistinctTlds(tables, req.tlds));
      && DistinctDomains(cs)
      && (forall d :: HasDomain(cs, d) <==> Yielded(tables, vs, d))
      && |cs| <= |req.names| * (|DistinctTlds(tables, req.tlds)| * (2 + PerAffix(req) * Affixes(req)))
  {
    var tlds := DistinctTlds(tables, req.tlds);
    FirstsAreDistinct(tables, Enumerate(req, req.names, tlds));
    EnumerateCount(req, req.names, tlds);
  }
}
