/** internal/domainname/name.go: from pasted text to a queryable name. */
module DomainName {
  import opened Basics
  import opened Text

  /** The two libraries the program consults: `idna` (None for an error) and `publicsuffix`. */
  datatype Tables = Tables(toAscii: string -> Option<string>, publicSuffix: string -> string)

  datatype Name = Name(input: string, ascii: string, tld: string, registrySuffix: string, sld: string) {
    predicate Registrable() {
      ascii == sld + "." + registrySuffix
    }
  }

  datatype ParseError = EmptyInput | NothingLeft | NotEncodable | NoTLD | TooLong | BadLabel | IsPublicSuffix

  // ---- stripURLParts ----

  /** Up to the first character that ends an authority. */
  function CutTail(s: string): string {
    var end := IndexAny(s, {'/', '?', '#'});
    if end >= 0 then s[..end] else s
  }

  /** After the last '@'. */
  function CutUser(s: string): string {
    var at := LastIndex(s, '@');
    if at >= 0 then s[at + 1..] else s
  }

  /** Up to the last ':', unless the text looks like an IPv6 literal. */
  function CutPort(s: string): string {
    var colon := LastIndex(s, ':');
    if colon >= 0 && ']' !in s then s[..colon] else s
  }

  function StripAuthority(s: string): string {
    TrimSpace(CutPort(CutUser(CutTail(s))))
  }

  function StripURLParts(s: string): string {
    var scheme := Index(s, "://");
    StripAuthority(if scheme >= 0 then s[scheme + 3..] else s)
  }

  // ---- Building what stripURLParts takes apart ----

  function UserPart(userinfo: Option<string>): string {
    match userinfo case Some(u) => u + "@" case None => ""
  }

  function PortPart(port: Option<string>): string {
    match port case Some(p) => ":" + p case None => ""
  }

  function Authority(userinfo: Option<string>, host: string, port: Option<string>, tail: string): string {
    UserPart(userinfo) + host + PortPart(port) + tail
  }

  /** The parts of section 3.2 of RFC 3986 as the program meets them. */
  ghost predicate GoodParts(userinfo: Option<string>, host: string, port: Option<string>, tail: string) {
    && (userinfo.Some? ==> FreeOf(userinfo.value, {'/', '?', '#'}))
    && host != "" && FreeOf(host, {'/', '?', '#', '@', ':', ']'}) && Trimmed(host)
    && (port.Some? ==> FreeOf(port.value, {'/', '?', '#', '@', ':', ']'}))
    && (tail == "" || tail[0] in {'/', '?', '#'})
  }

  lemma CutTailInverts(s: string, tail: string)
    requires FreeOf(s, {'/', '?', '#'}) && (tail == "" || tail[0] in {'/', '?', '#'})
    ensures CutTail(s + tail) == s
  {
    FirstAny(s, tail, {'/', '?', '#'});
    assert (s + tail)[..|s|] == s;
  }

  lemma CutUserInverts(userinfo: Option<string>, s: string)
    requires '@' !in s
    ensures CutUser(UserPart(userinfo) + s) == s
  {
    match userinfo
    case Some(u) =>
      LastAfter(u, '@', s);
      assert UserPart(userinfo) + s == u + ['@'] + s;
      assert (u + ['@'] + s)[|u| + 1..] == s;
    case None =>
      LastIndexIsLast(s, '@');
      assert UserPart(userinfo) + s == s;
  }

  lemma CutPortInverts(host: string, port: Option<string>)
    requires ':' !in host && ']' !in host
    requires port.Some? ==> ':' !in port.value && ']' !in port.value
    ensures CutPort(host + PortPart(port)) == host
  {
    match port
    case Some(p) =>
      LastAfter(host, ':', p);
      assert host + PortPart(port) == host + [':'] + p;
      assert (host + [':'] + p)[..|host|] == host;
    case None =>
      LastIndexIsLast(host, ':');
      assert host + PortPart(port) == host;
  }

  lemma TrimmedStays(s: string)
    requires Trimmed(s)
    ensures TrimSpace(s) == s
  {
  }

  /** Nothing before the tail ends an authority, and the '@' of the userinfo is the last one. */
  lemma AuthorityIsClean(userinfo: Option<string>, host: string, port: Option<string>)
    requires GoodParts(userinfo, host, port, "")
    ensures FreeOf(UserPart(userinfo) + (host + PortPart(port)), {'/', '?', '#'})
    ensures '@' !in host + PortPart(port) && ':' !in host && ']' !in host
    ensures port.Some? ==> ':' !in port.value && ']' !in port.value
  {
  }

  /** Taking an authority apart returns exactly the host that was put in. */
  lemma StripInvertsAuthority(userinfo: Option<string>, host: string, port: Option<string>, tail: string)
    requires GoodParts(userinfo, host, port, tail)
    ensures StripAuthority(Authority(userinfo, host, port, tail)) == host
  {
    hide CutTail, CutUser, CutPort, TrimSpace, UserPart, PortPart, FreeOf, Trimmed;
    var hostPort := host + PortPart(port);
    var s := UserPart(userinfo) + hostPort;
    AuthorityIsClean(userinfo, host, port);
    assert Authority(userinfo, host, port, tail) == s + tail;
    CutTailInverts(s, tail);
    CutUserInverts(userinfo, hostPort);
    CutPortInverts(host, port);
    TrimmedStays(host);
  }

  /** A pasted URL, with any scheme, userinfo, port, path, query or fragment, resolves to its host. */
  lemma UrlRoundTrip(scheme: string, userinfo: Option<string>, host: string, port: Option<string>, tail: string)
    requires ':' !in scheme && GoodParts(userinfo, host, port, tail)
    ensures StripURLParts(scheme + "://" + Authority(userinfo, host, port, tail)) == host
  {
    var rest := Authority(userinfo, host, port, tail);
    var s := scheme + "://" + rest;
    IndexIsFirst(s, "://");
    assert s[|scheme|..|scheme| + 3] == "://";
    assert Occurs(s, "://", |scheme|);
    var i := Index(s, "://");
    assert s[i] == (s[i..i + 3])[0] == ':';
    assert forall j :: 0 <= j < |scheme| ==> s[j] == scheme[j] != ':';
    assert s[|scheme| + 3..] == rest;
    StripInvertsAuthority(userinfo, host, port, tail);
  }

  predicate MarkerAt(s: string, i: int) {
    0 <= i < |s| - 2 && s[i] == ':' && s[i + 1] == '/' && s[i + 2] == '/'
  }

  /** `Index(s, "://")` is the first marker. */
  lemma FirstMarker(s: string)
    ensures Index(s, "://") >= 0 ==> MarkerAt(s, Index(s, "://"))
    ensures forall j :: MarkerAt(s, j) ==> 0 <= Index(s, "://") <= j
  {
    IndexIsFirst(s, "://");
    var i := Index(s, "://");
    if i >= 0 {
      var found := s[i..i + 3];
      assert found == "://" && found[0] == s[i] && found[1] == s[i + 1] && found[2] == s[i + 2];
    }
    forall j | MarkerAt(s, j) ensures Occurs(s, "://", j) {
      assert s[j..j + 3] == [s[j], s[j + 1], s[j + 2]];
    }
  }

  /** `tail` opens with "//" right after a ':'. */
  predicate Straddles(front: string, tail: string) {
    front != "" && front[|front| - 1] == ':' && |tail| >= 2 && tail[0] == '/' && tail[1] == '/'
  }

  /** Where the first "://" of `front + tail` stands when `front` has no slash. */
  lemma MarkerAcross(front: string, tail: string)
    requires '/' !in front
    ensures Index(front + tail, "://") ==
            if Straddles(front, tail) then |front| - 1
            else if Index(tail, "://") >= 0 then |front| + Index(tail, "://")
            else -1
  {
    hide Index;
    var s, n := front + tail, |front|;
    FirstMarker(s);
    FirstMarker(tail);
    forall i | MarkerAt(s, i)
      ensures i >= n - 1 && (i == n - 1 ==> Straddles(front, tail)) && (i >= n ==> MarkerAt(tail, i - n))
    {
      assert forall k :: 0 <= k < n ==> s[k] == front[k] && front[k] != '/';
    }
    forall j | MarkerAt(tail, j) ensures MarkerAt(s, n + j) {}
    if Straddles(front, tail) {
      assert MarkerAt(s, n - 1);
    }
  }

  /** Without a scheme the host comes back when its tail holds no "://" and does not complete one after an
      empty port. Otherwise everything before the marker, the real host included, is thrown away, and what is
      left is stripped instead. */
  lemma SchemelessOutcome(userinfo: Option<string>, host: string, port: Option<string>, tail: string)
    requires GoodParts(userinfo, host, port, tail)
    ensures StripURLParts(Authority(userinfo, host, port, tail)) ==
            var marker := Index(tail, "://");
            if port == Some("") && "//" <= tail then StripAuthority(tail[2..])
            else if marker >= 0 then StripAuthority(tail[marker + 3..])
            else host
  {
    hide StripAuthority, Index, FreeOf, Trimmed, UserPart, PortPart, Straddles;
    var front := UserPart(userinfo) + host + PortPart(port);
    var s := front + tail;
    NoSlash(userinfo, host, port);
    HostHasNoColon(userinfo, host, port, tail);
    StraddlesExactly(UserPart(userinfo), host, port, tail);
    MarkerAcross(front, tail);
    StripInvertsAuthority(userinfo, host, port, tail);
    FirstMarker(tail);
    var marker := Index(tail, "://");
    if Straddles(front, tail) {
      assert s[|front| + 2..] == tail[2..];
    } else if marker >= 0 {
      assert s[|front| + marker + 3..] == tail[marker + 3..];
    }
  }

  lemma StraddlesExactly(user: string, host: string, port: Option<string>, tail: string)
    requires host != "" && ':' !in host && (port.Some? ==> ':' !in port.value)
    ensures Straddles(user + host + PortPart(port), tail) <==> port == Some("") && "//" <= tail
  {
    var front := user + host + PortPart(port);
    match port
    case None => assert front[|front| - 1] == host[|host| - 1];
    case Some(p) => assert front[|front| - 1] == (":" + p)[|p|];
  }

  lemma HostHasNoColon(userinfo: Option<string>, host: string, port: Option<string>, tail: string)
    requires GoodParts(userinfo, host, port, tail)
    ensures host != "" && ':' !in host && (port.Some? ==> ':' !in port.value)
  {
  }

  /** Any host can be replaced by any other, or by itself, through a path that mentions it. */
  lemma HostReplaced(host: string, other: string)
    requires GoodParts(None, host, None, "") && GoodParts(None, other, None, "")
    ensures StripURLParts(host + "/://" + other) == other
  {
    hide StripURLParts, StripAuthority, FreeOf, Trimmed;
    var tail := "/://" + other;
    assert Authority(None, host, None, tail) == host + "/://" + other;
    assert Authority(None, other, None, "") == other;
    MarkerAtOne(other);
    SchemelessOutcome(None, host, None, tail);
    StripInvertsAuthority(None, other, None, "");
  }

  /** "a.b/://c.d" is read as "c.d". */
  lemma ReplacedExample()
    ensures StripURLParts("a.b/://c.d") == "c.d"
  {
    hide StripURLParts;
    assert "a.b" + "/://" + "c.d" == "a.b/://c.d";
    HostReplaced("a.b", "c.d");
  }

  lemma MarkerAtOne(rest: string)
    ensures Index("/://" + rest, "://") == 1 && ("/://" + rest)[4..] == rest
  {
    var s := "/://" + rest;
    FirstMarker(s);
    assert MarkerAt(s, 1) && !MarkerAt(s, 0);
  }

  lemma NoSlash(userinfo: Option<string>, host: string, port: Option<string>)
    requires GoodParts(userinfo, host, port, "")
    ensures '/' !in UserPart(userinfo) + host + PortPart(port)
  {
    assert '/' !in UserPart(userinfo);
    assert '/' !in host;
    assert '/' !in PortPart(port);
  }

  /** Text that looks like an IPv6 literal keeps its colons, so that it is refused later. */
  lemma LiteralKeepsItsPort(s: string)
    requires FreeOf(s, {'/', '?', '#', '@'}) && ']' in s && Trimmed(s)
    ensures StripURLParts(s) == s
  {
    hide FreeOf, Trimmed;
    IndexAnyIsFirst(s, {'/', '?', '#'});
    LastIndexIsLast(s, '@');
    NoMarkerWithoutSlash(s);
    DelimiterFree(s);
    TrimmedStays(s);
  }

  lemma DelimiterFree(s: string)
    requires FreeOf(s, {'/', '?', '#', '@'})
    ensures FreeOf(s, {'/', '?', '#'}) && '@' !in s && '/' !in s
  {
  }

  lemma NoMarkerWithoutSlash(s: string)
    requires FreeOf(s, {'/', '?', '#', '@'})
    ensures Index(s, "://") < 0
  {
    FirstMarker(s);
  }

  // ---- Parse ----

  predicate GoodLabels(s: string) {
    forall i :: 0 <= i < |Labels(s)| ==> 1 <= |Labels(s)[i]| <= 63
  }

  /** The checks and the split of a lower-cased ASCII name. */
  function FromAscii(tables: Tables, input: string, ascii: string): Result<Name, ParseError> {
    if '.' !in ascii then Err(NoTLD)
    else if |ascii| > 253 then Err(TooLong)
    else if !GoodLabels(ascii) then Err(BadLabel)
    else
      var suffix := tables.publicSuffix(ascii);
      if suffix == ascii then Err(IsPublicSuffix)
      else
        var sld := LastLabel(TrimSuffix(ascii, "." + suffix));
        var tld := LastLabel(ascii);
        if tld == "" then Err(NothingLeft)
        else Ok(Name(input, ascii, tld, suffix, sld))
  }

  function Parse(tables: Tables, input: string): Result<Name, ParseError> {
    var raw := TrimSpace(input);
    if raw == "" then Err(EmptyInput)
    else
      var cleaned := TrimSuffix(StripURLParts(raw), ".");
      if cleaned == "" then Err(NothingLeft)
      else
        match tables.toAscii(cleaned)
        case None => Err(NotEncodable)
        case Some(encoded) => FromAscii(tables, input, ToLower(encoded))
  }

  function NormalizeTLD(tables: Tables, input: string): Result<string, ParseError> {
    var tld := TrimPrefix(ToLower(TrimSpace(input)), ".");
    if tld == "" then Err(EmptyInput)
    else
      match tables.toAscii(tld)
      case None => Err(NotEncodable)
      case Some(ascii) => Ok(ToLower(ascii))
  }

  /** Blanks around a TLD, one leading dot and the case of its letters make no difference: ".COM" is "com". */
  lemma TldSpellings(tables: Tables, before: string, spelled: string, after: string, tld: string)
    requires Blank(before) && Blank(after) && ToLower(spelled) == ToLower(tld)
    requires tld != "" && tld[0] != '.' && !IsSpace(tld[0]) && !IsSpace(tld[|tld| - 1])
    requires spelled != "" && !IsSpace(spelled[0]) && !IsSpace(spelled[|spelled| - 1])
    ensures NormalizeTLD(tables, before + spelled + after) == NormalizeTLD(tables, tld)
    ensures NormalizeTLD(tables, before + ("." + spelled) + after) == NormalizeTLD(tables, tld)
    ensures NormalizeTLD(tables, tld) ==
            match tables.toAscii(ToLower(tld)) case None => Err(NotEncodable) case Some(ascii) => Ok(ToLower(ascii))
  {
    hide IsSpace, ToLower, LowerChar, NormalizeTLD, Blank;
    DotsAreKept(spelled, tld);
    PlainTld(tables, before, spelled, after);
    DottedTld(tables, before, spelled, after);
    NoBlanks();
    PlainTld(tables, "", tld, "");
    assert "" + tld + "" == tld;
  }

  lemma NoBlanks()
    ensures Blank("")
  {
  }

  lemma PlainTld(tables: Tables, before: string, core: string, after: string)
    requires Blank(before) && Blank(after) && core != "" && ToLower(core)[0] != '.'
    requires !IsSpace(core[0]) && !IsSpace(core[|core| - 1])
    ensures NormalizeTLD(tables, before + core + after) ==
            match tables.toAscii(ToLower(core)) case None => Err(NotEncodable) case Some(ascii) => Ok(ToLower(ascii))
  {
    hide IsSpace, ToLower, LowerChar, TrimSpace, Blank;
    TrimSpaceCore(before, core, after);
  }

  lemma DottedTld(tables: Tables, before: string, core: string, after: string)
    requires Blank(before) && Blank(after) && core != "" && !IsSpace(core[|core| - 1])
    ensures NormalizeTLD(tables, before + ("." + core) + after) ==
            match tables.toAscii(ToLower(core)) case None => Err(NotEncodable) case Some(ascii) => Ok(ToLower(ascii))
  {
    hide IsSpace, ToLower, LowerChar, TrimSpace, Blank;
    DotIsNoBlank();
    TrimSpaceCore(before, "." + core, after);
    LowerOfConcat(".", core);
    assert TrimPrefix("." + ToLower(core), ".") == ToLower(core);
  }

  lemma DotIsNoBlank()
    ensures !IsSpace('.') && ToLower(".") == "."
  {
  }

  lemma DotsAreKept(spelled: string, tld: string)
    requires tld != "" && tld[0] != '.' && ToLower(spelled) == ToLower(tld)
    ensures |spelled| == |tld| && ToLower(spelled)[0] != '.'
  {
    assert |ToLower(spelled)| == |ToLower(tld)|;
    assert ToLower(tld)[0] == LowerChar(tld[0]);
  }

  /** Everything of a name but the text it came from. */
  function Meaning(r: Result<Name, ParseError>): Result<Name, ParseError> {
    match r case Ok(name) => Ok(name.(input := "")) case Err(e) => Err(e)
  }

  /** Trimming `kept + rest` when `kept` ends in a delimiter. */
  lemma TrimmedAfter(kept: string, rest: string)
    requires kept != "" && kept[|kept| - 1] in {'/', '?', '#', ':'}
    ensures TrimRight(kept + rest, IsSpace) == kept + TrimRight(rest, IsSpace)
  {
    DelimitersAreNoBlanks();
    TrimRightStops(kept, rest, IsSpace);
  }

  lemma TailTrimmed(front: string, tail: string, blanks: string) returns (tail': string)
    requires tail != "" && tail[0] in {'/', '?', '#'}
    ensures tail' != "" && tail'[0] == tail[0]
    ensures TrimRight(front + tail + blanks, IsSpace) == front + tail'
  {
    hide IsSpace;
    var kept, rest := front + [tail[0]], tail[1..] + blanks;
    assert front + tail + blanks == kept + rest;
    TrimmedAfter(kept, rest);
    tail' := [tail[0]] + TrimRight(rest, IsSpace);
    assert kept + TrimRight(rest, IsSpace) == front + tail';
  }

  lemma PortTrimmed(front: string, port: string, blanks: string) returns (port': string)
    requires FreeOf(port, {'/', '?', '#', '@', ':', ']'}) && Blank(blanks)
    ensures FreeOf(port', {'/', '?', '#', '@', ':', ']'})
    ensures TrimRight(front + ":" + port + blanks, IsSpace) == front + ":" + port'
  {
    hide IsSpace;
    var kept, rest := front + ":", port + blanks;
    assert front + ":" + port + blanks == kept + rest;
    TrimmedAfter(kept, rest);
    TrimRightCuts(rest, IsSpace);
    BlanksAreNoDelimiters(blanks);
    port' := TrimRight(rest, IsSpace);
  }

  /** What may follow a host. */
  function Ending(port: Option<string>, tail: string): string {
    PortPart(port) + tail
  }

  ghost predicate GoodEnding(port: Option<string>, tail: string) {
    && (port.Some? ==> FreeOf(port.value, {'/', '?', '#', '@', ':', ']'}))
    && (tail == "" || tail[0] in {'/', '?', '#'})
  }

  lemma TailEnds(stem: string, port: Option<string>, tail: string)
    ensures stem + Ending(port, tail) == (stem + PortPart(port)) + tail
  {
  }

  lemma PortEnds(stem: string, port: string)
    ensures stem + Ending(Some(port), "") == stem + ":" + port
  {
  }

  lemma NothingEnds(stem: string)
    ensures stem + Ending(None, "") == stem
  {
  }

  /** Blanks after a host and its ending are trimmed from the tail, or from the port if there is no tail. */
  lemma EndingTrimmed(stem: string, port: Option<string>, tail: string, blanks: string)
    returns (port': Option<string>, tail': string)
    requires stem != "" && !IsSpace(stem[|stem| - 1]) && GoodEnding(port, tail) && Blank(blanks)
    ensures GoodEnding(port', tail')
    ensures TrimRight(stem + Ending(port, tail) + blanks, IsSpace) == stem + Ending(port', tail')
  {
    hide IsSpace, FreeOf, Blank, TrimRight, Ending, PortPart;
    port', tail' := port, tail;
    if tail != "" {
      tail' := TailTrimmed(stem + PortPart(port), tail, blanks);
      TailEnds(stem, port, tail);
      TailEnds(stem, port, tail');
    } else if port.Some? {
      var p := PortTrimmed(stem, port.value, blanks);
      port' := Some(p);
      PortEnds(stem, port.value);
      PortEnds(stem, p);
    } else {
      TrimRightStops(stem, blanks, IsSpace);
      BlankIsTrimmedAway(blanks);
      NothingEnds(stem);
    }
  }

  lemma AuthorityEnds(front: string, userinfo: Option<string>, host: string, port: Option<string>, tail: string)
    ensures front + Authority(userinfo, host, port, tail) == (front + UserPart(userinfo) + host) + Ending(port, tail)
  {
  }

  lemma AuthorityTrimmed(front: string, userinfo: Option<string>, host: string, port: Option<string>, tail: string,
                         blanks: string)
    returns (port': Option<string>, tail': string)
    requires GoodParts(userinfo, host, port, tail) && Blank(blanks)
    ensures GoodParts(userinfo, host, port', tail')
    ensures TrimRight(front + Authority(userinfo, host, port, tail) + blanks, IsSpace) ==
            front + Authority(userinfo, host, port', tail')
  {
    hide IsSpace, FreeOf, UserPart, Blank, Authority, Ending;
    var stem := front + UserPart(userinfo) + host;
    assert stem[|stem| - 1] == host[|host| - 1];
    port', tail' := EndingTrimmed(stem, port, tail, blanks);
    AuthorityEnds(front, userinfo, host, port, tail);
    AuthorityEnds(front, userinfo, host, port', tail');
  }

  lemma DelimitersAreNoBlanks()
    ensures !IsSpace('/') && !IsSpace('?') && !IsSpace('#') && !IsSpace(':')
  {
  }

  lemma BlanksAreNoDelimiters(blanks: string)
    requires Blank(blanks)
    ensures FreeOf(blanks, {'/', '?', '#', '@', ':', ']'})
  {
  }

  /** Pasting the URL of a host, with blanks around it or not, and typing the host give the same name, or the
      same refusal. */
  lemma UrlParsesAsHost(tables: Tables, before: string, scheme: string, userinfo: Option<string>, host: string,
                        port: Option<string>, tail: string, after: string)
    requires Blank(before) && Blank(after) && ':' !in scheme && GoodParts(userinfo, host, port, tail)
    ensures Meaning(Parse(tables, before + scheme + "://" + Authority(userinfo, host, port, tail) + after)) ==
            Meaning(Parse(tables, host))
  {
    hide Parse, IsSpace, StripURLParts, GoodParts, Authority;
    var rest := "://" + Authority(userinfo, host, port, tail) + after;
    var text := before + scheme + "://" + Authority(userinfo, host, port, tail) + after;
    var scheme' := TrimLeft(before + scheme, IsSpace);
    assert text == (before + scheme) + rest;
    DelimitersAreNoBlanks();
    TrimLeftStops(before + scheme, rest, IsSpace);
    BlanksAreNoDelimiters(before);
    TrimLeftCuts(before + scheme, IsSpace);
    assert ':' !in before;
    var port', tail' := AuthorityTrimmed(scheme' + "://", userinfo, host, port, tail, after);
    var url := scheme' + "://" + Authority(userinfo, host, port', tail');
    assert scheme' + rest == scheme' + "://" + Authority(userinfo, host, port, tail) + after;
    UrlRoundTrip(scheme', userinfo, host, port', tail');
    HostIsPlain(userinfo, host, port, tail);
    HostStays(host);
    TrimmedStays(host);
    ParseOfStripped(tables, text, url, host);
    ParseOfStripped(tables, host, host, host);
  }

  lemma HostIsPlain(userinfo: Option<string>, host: string, port: Option<string>, tail: string)
    requires GoodParts(userinfo, host, port, tail)
    ensures host != "" && FreeOf(host, {'/', '?', '#', '@', ':', ']'}) && Trimmed(host)
  {
  }

  lemma HostStays(host: string)
    requires host != "" && FreeOf(host, {'/', '?', '#', '@', ':', ']'}) && Trimmed(host)
    ensures StripURLParts(host) == host
  {
    assert Authority(None, host, None, "") == host;
    SchemelessOutcome(None, host, None, "");
  }

  lemma MeaningHasNoInput(tables: Tables, input: string, ascii: string)
    ensures Meaning(FromAscii(tables, input, ascii)) == Meaning(FromAscii(tables, "", ascii))
  {
  }

  lemma ParseOfStripped(tables: Tables, text: string, trimmed: string, host: string)
    requires TrimSpace(text) == trimmed != "" && StripURLParts(trimmed) == host
    ensures Meaning(Parse(tables, text)) ==
            var cleaned := TrimSuffix(host, ".");
            if cleaned == "" then Err(NothingLeft)
            else match tables.toAscii(cleaned)
                 case None => Err(NotEncodable)
                 case Some(encoded) => Meaning(FromAscii(tables, "", ToLower(encoded)))
  {
    hide FromAscii, StripURLParts, TrimSpace, HasSuffix;
    forall ascii ensures Meaning(FromAscii(tables, text, ascii)) == Meaning(FromAscii(tables, "", ascii)) {
      MeaningHasNoInput(tables, text, ascii);
    }
  }

  /** A final dot changes nothing: the fully qualified spelling means the same name. */
  lemma FinalDotIgnored(tables: Tables, host: string)
    requires host != "" && FreeOf(host, {'/', '?', '#', '@', ':', ']'}) && Trimmed(host) && host[|host| - 1] != '.'
    ensures Meaning(Parse(tables, host + ".")) == Meaning(Parse(tables, host))
  {
    hide TrimSpace, Parse, StripURLParts, FromAscii;
    HostStays(host);
    HostStays(host + ".");
    TrimmedStays(host);
    TrimmedStays(host + ".");
    ParseOfStripped(tables, host + ".", host + ".", host + ".");
    ParseOfStripped(tables, host, host, host);
    assert TrimSuffix(host + ".", ".") == host && TrimSuffix(host, ".") == host;
  }

  /** A name is accepted exactly when it has at least two labels of 1 to 63 bytes within 253 in all and is
      not itself a public suffix: the final check for an empty TLD never fires. */
  lemma AcceptedExactly(tables: Tables, input: string, ascii: string)
    ensures FromAscii(tables, input, ascii).Ok? <==>
            |Labels(ascii)| >= 2 && GoodLabels(ascii) && |ascii| <= 253 && tables.publicSuffix(ascii) != ascii
  {
    hide Labels;
    LabelsOfOne(ascii);
    LastLabelIsLast(ascii);
  }

  // ---- Label algebra ----

  /** What the public suffix list promises: the suffix is the name or a label-aligned tail of it. */
  ghost predicate LabelAligned(tables: Tables) {
    forall ascii :: GoodLabels(ascii) ==> AlignedOn(ascii, tables.publicSuffix(ascii))
  }

  predicate AlignedOn(ascii: string, suffix: string) {
    suffix != "" && (suffix == ascii || HasSuffix(ascii, "." + suffix))
  }

  /** A suffix list that knows bare TLDs only. */
  function BareTlds(): Tables {
    Tables(s => Some(s), s => LastLabel(s))
  }

  lemma BareTldsAreAligned()
    ensures LabelAligned(BareTlds())
  {
    hide Labels;
    forall ascii | GoodLabels(ascii) ensures AlignedOn(ascii, BareTlds().publicSuffix(ascii)) {
      LastLabelIsLast(ascii);
      LastIndexIsLast(ascii, '.');
    }
  }

  lemma TwoLabels()
    ensures Labels("a.b") == ["a", "b"] && LastLabel("a.b") == "b" && LastLabel("a") == "a"
  {
    hide Labels, LastLabel;
    assert "a" + "." + "b" == "a.b";
    LabelsWhole("a");
    LabelsWhole("b");
    LabelsJoin("a", "b");
    LastLabelIsLast("a");
    LastLabelIsLast("a.b");
  }

  lemma TwoLabelsAccepted()
    ensures FromAscii(BareTlds(), "a.b", "a.b") == Ok(Name("a.b", "a.b", "b", "b", "a"))
  {
    hide Labels, LastLabel;
    TwoLabels();
    assert TrimSuffix("a.b", "." + "b") == "a";
  }

  /** An accepted name is what its ASCII form gives. */
  lemma AcceptedFromAscii(tables: Tables, input: string)
    requires Parse(tables, input).Ok?
    ensures Parse(tables, input) == FromAscii(tables, input, Parse(tables, input).value.ascii)
  {
  }

  /** What `idna` does with names it has encoded: it gives them back. Such names hold no delimiter. */
  predicate Encoded(tables: Tables, ascii: string) {
    FreeOf(ascii, {'/', '?', '#', '@', ':', ']'}) && Trimmed(ascii) && tables.toAscii(ascii) == Some(ascii)
  }

  /** An accepted name parses to itself. */
  lemma AcceptedParsesToItself(tables: Tables, input: string)
    requires Parse(tables, input).Ok? && Encoded(tables, Parse(tables, input).value.ascii)
    ensures Meaning(Parse(tables, Parse(tables, input).value.ascii)) == Meaning(Parse(tables, input))
  {
    hide TrimSpace, StripURLParts, FromAscii, Labels, FreeOf, Trimmed;
    var a := Parse(tables, input).value.ascii;
    AcceptedFromAscii(tables, input);
    AcceptedExactly(tables, input, a);
    NoFinalDot(a);
    AsciiIsLower(tables, input);
    HostStays(a);
    TrimmedStays(a);
    ParseOfStripped(tables, a, a, a);
    MeaningHasNoInput(tables, input, a);
  }

  lemma NoFinalDot(ascii: string)
    requires GoodLabels(ascii)
    ensures ascii != "" && TrimSuffix(ascii, ".") == ascii
  {
    hide Labels;
    LastLabelIsLast(ascii);
    LastIndexIsLast(ascii, '.');
    var n := |ascii| - 1;
    assert ascii[n] == ascii[LastIndex(ascii, '.') + 1..][n - LastIndex(ascii, '.') - 1] != '.';
    assert ascii[n..] == [ascii[n]];
  }

  lemma AsciiIsLower(tables: Tables, input: string)
    requires Parse(tables, input).Ok?
    ensures ToLower(Parse(tables, input).value.ascii) == Parse(tables, input).value.ascii
  {
    hide TrimSpace, StripURLParts;
    var encoded := tables.toAscii(TrimSuffix(StripURLParts(TrimSpace(input)), ".")).value;
    LowerTwice(encoded);
  }

  lemma LowerTwice(s: string)
    ensures ToLower(ToLower(s)) == ToLower(s)
  {
    var t := ToLower(s);
    forall i | 0 <= i < |s| ensures ToLower(t)[i] == t[i] {
      assert t[i] == LowerChar(s[i]);
    }
  }

  /** The lemmas below are about something: this list is label-aligned, and with it "a.b" is accepted. */
  lemma SomeNameIsAccepted()
    ensures LabelAligned(BareTlds()) && Parse(BareTlds(), "a.b") == Ok(Name("a.b", "a.b", "b", "b", "a"))
  {
    hide FromAscii, Labels, StripURLParts, TrimSpace, LabelAligned;
    BareTldsAreAligned();
    TwoLabelsAccepted();
    TrimmedStays("a.b");
    HostStays("a.b");
    assert TrimSuffix("a.b", ".") == "a.b";
    assert ToLower("a.b") == "a.b";
  }

  /** What precedes the registry suffix of an accepted name. */
  lemma StemOf(tables: Tables, input: string, ascii: string) returns (stem: string)
    requires LabelAligned(tables) && FromAscii(tables, input, ascii).Ok?
    ensures
      var n := FromAscii(tables, input, ascii).value;
      ascii == stem + "." + n.registrySuffix && n.sld == LastLabel(stem) && n.registrySuffix != ""
  {
    var suffix := tables.publicSuffix(ascii);
    assert AlignedOn(ascii, suffix);
    var cut := "." + suffix;
    stem := TrimSuffix(ascii, cut);
    assert ascii == stem + cut == stem + "." + suffix;
  }

  /** Every accepted name ends in its SLD and its suffix, and the SLD is a single label. */
  lemma AcceptedNames(tables: Tables, input: string)
    requires LabelAligned(tables) && Parse(tables, input).Ok?
    ensures
      var n := Parse(tables, input).value;
      && n.input == input && n.registrySuffix == tables.publicSuffix(n.ascii)
      && HasSuffix(n.ascii, n.sld + "." + n.registrySuffix)
      && n.sld in Labels(n.ascii) && '.' !in n.sld
  {
    var n := Parse(tables, input).value;
    AcceptedFromAscii(tables, input);
    var stem := StemOf(tables, input, n.ascii);
    NameParts(n, stem);
  }

  lemma NameParts(n: Name, stem: string)
    requires n.ascii == stem + "." + n.registrySuffix && n.sld == LastLabel(stem)
    ensures HasSuffix(n.ascii, n.sld + "." + n.registrySuffix)
    ensures n.sld in Labels(n.ascii) && '.' !in n.sld
  {
    hide Labels, LastLabel, HasSuffix;
    LabelsJoin(stem, n.registrySuffix);
    LastLabelIsLast(stem);
    LastLabelEnds(stem);
    var tail := "." + n.registrySuffix;
    TailOfConcat(n.ascii, stem, n.sld, tail);
    assert n.sld + "." + n.registrySuffix == n.sld + tail;
  }

  lemma LastLabelEnds(s: string)
    ensures HasSuffix(s, LastLabel(s))
  {
  }

  /** Its TLD is the last label of the name and of the suffix alike, and its labels keep to the
      limits of section 2.3.4 of RFC 1035. */
  lemma AcceptedLabels(tables: Tables, input: string)
    requires LabelAligned(tables) && Parse(tables, input).Ok?
    ensures
      var n := Parse(tables, input).value;
      && GoodLabels(n.ascii) && |n.ascii| <= 253
      && n.tld == Labels(n.ascii)[|Labels(n.ascii)| - 1]
      && n.tld == Labels(n.registrySuffix)[|Labels(n.registrySuffix)| - 1]
  {
    hide Parse, Labels, LastLabel, LabelAligned, AlignedOn;
    var n := Parse(tables, input).value;
    AcceptedFromAscii(tables, input);
    var stem := StemOf(tables, input, n.ascii);
    LabelsJoin(stem, n.registrySuffix);
    LastLabelIsLast(n.ascii);
    LastLabelIsLast(n.registrySuffix);
  }

  lemma TailOfConcat(whole: string, stem: string, last: string, rest: string)
    requires whole == stem + rest && HasSuffix(stem, last)
    ensures HasSuffix(whole, last + rest)
  {
    assert whole[|whole| - |last + rest|..] == stem[|stem| - |last|..] + rest;
  }

  /** A name can be registered directly exactly when it has one label more than its public suffix. */
  lemma RegistrableByLabels(tables: Tables, input: string)
    requires LabelAligned(tables) && Parse(tables, input).Ok?
    ensures
      var n := Parse(tables, input).value;
      n.Registrable() <==> |Labels(n.ascii)| == |Labels(n.registrySuffix)| + 1
  {
    var n := Parse(tables, input).value;
    AcceptedFromAscii(tables, input);
    var stem := StemOf(tables, input, n.ascii);
    LabelsJoin(stem, n.registrySuffix);
    LabelsOfOne(stem);
    LastLabelIsLast(stem);
    LastIndexIsLast(stem, '.');
    if '.' !in stem {
      assert n.sld == stem[0..] == stem;
    } else {
      assert |n.sld| < |stem|;
    }
  }
}
