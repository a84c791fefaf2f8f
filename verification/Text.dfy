/** The string functions of Go's `strings` package that the program uses. */
module Text {

  /** `sub` stands at position `i` of `s`. */
  predicate Occurs(s: string, sub: string, i: int) {
    0 <= i <= |s| - |sub| && s[i..i + |sub|] == sub
  }

  /** The first position of `sub`, or -1. */
  function Index(s: string, sub: string): (r: int)
    ensures -1 <= r && r + |sub| <= |s| + |sub|
    ensures r >= 0 ==> r + |sub| <= |s|
  {
    if |s| < |sub| then -1
    else if s[..|sub|] == sub then 0
    else var rest := Index(s[1..], sub); if rest < 0 then -1 else rest + 1
  }

  lemma {:induction false} IndexIsFirst(s: string, sub: string)
    ensures Index(s, sub) >= 0 ==> Occurs(s, sub, Index(s, sub))
    ensures forall j :: Occurs(s, sub, j) ==> 0 <= Index(s, sub) <= j
  {
    if |s| >= |sub| && s[..|sub|] != sub {
      var t := s[1..];
      IndexIsFirst(t, sub);
      var r := Index(t, sub);
      if r >= 0 {
        assert t[r..r + |sub|] == s[r + 1..r + 1 + |sub|];
      }
      forall j | Occurs(s, sub, j) ensures 0 <= Index(s, sub) <= j {
        assert j > 0;
        assert t[j - 1..j - 1 + |sub|] == s[j..j + |sub|];
        assert Occurs(t, sub, j - 1);
      }
    }
  }

  /** The first position of any of `chars`, or -1. */
  function IndexAny(s: string, chars: set<char>): (r: int)
    ensures -1 <= r < |s|
  {
    if s == "" then -1
    else if s[0] in chars then 0
    else var rest := IndexAny(s[1..], chars); if rest < 0 then -1 else rest + 1
  }

  predicate FreeOf(s: string, chars: set<char>) {
    forall i :: 0 <= i < |s| ==> s[i] !in chars
  }

  lemma {:induction false} IndexAnyIsFirst(s: string, chars: set<char>)
    ensures IndexAny(s, chars) < 0 <==> FreeOf(s, chars)
    ensures IndexAny(s, chars) >= 0 ==> s[IndexAny(s, chars)] in chars && FreeOf(s[..IndexAny(s, chars)], chars)
  {
    if s != "" && s[0] !in chars {
      IndexAnyIsFirst(s[1..], chars);
      assert s == [s[0]] + s[1..];
    }
  }

  /** The last position of `c`, or -1. */
  function LastIndex(s: string, c: char): (r: int)
    ensures -1 <= r < |s|
  {
    if s == "" then -1
    else if s[|s| - 1] == c then |s| - 1
    else LastIndex(s[..|s| - 1], c)
  }

  lemma {:induction false} LastIndexIsLast(s: string, c: char)
    ensures LastIndex(s, c) < 0 <==> c !in s
    ensures LastIndex(s, c) >= 0 ==> s[LastIndex(s, c)] == c
    ensures c !in s[LastIndex(s, c) + 1..]
  {
    if s == "" {
    } else if s[|s| - 1] == c {
      assert s[|s|..] == "";
    } else {
      var front, last := s[..|s| - 1], s[|s| - 1];
      var k := LastIndex(front, c);
      LastIndexIsLast(front, c);
      assert LastIndex(s, c) == k && s == front + [last];
      hide LastIndex;
      assert s[k + 1..] == front[k + 1..] + [last];
    }
  }

  predicate HasSuffix(s: string, suffix: string) {
    |suffix| <= |s| && s[|s| - |suffix|..] == suffix
  }

  function TrimSuffix(s: string, suffix: string): string {
    if HasSuffix(s, suffix) then s[..|s| - |suffix|] else s
  }

  function TrimPrefix(s: string, prefix: string): string {
    if prefix <= s then s[|prefix|..] else s
  }

  /** Go's `unicode.IsSpace`. */
  predicate IsSpace(c: char) {
    || '\t' <= c <= '\r'
    || c == ' ' || c == '\U{85}' || c == '\U{a0}' || c == '\U{1680}'
    || '\U{2000}' <= c <= '\U{200a}'
    || c == '\U{2028}' || c == '\U{2029}' || c == '\U{202f}' || c == '\U{205f}' || c == '\U{3000}'
  }

  function TrimLeft(s: string, drop: char -> bool): string {
    if s != "" && drop(s[0]) then TrimLeft(s[1..], drop) else s
  }

  function TrimRight(s: string, drop: char -> bool): string {
    if s != "" && drop(s[|s| - 1]) then TrimRight(s[..|s| - 1], drop) else s
  }

  function TrimSpace(s: string): string {
    TrimRight(TrimLeft(s, IsSpace), IsSpace)
  }

  /** No whitespace at either end. */
  predicate Trimmed(s: string) {
    s == "" || (!IsSpace(s[0]) && !IsSpace(s[|s| - 1]))
  }

  predicate Blank(s: string) {
    forall i :: 0 <= i < |s| ==> IsSpace(s[i])
  }

  /** Trimming on the left stops at the first character that stays. */
  lemma {:induction false} TrimLeftStops(s: string, rest: string, drop: char -> bool)
    requires rest != "" && !drop(rest[0])
    ensures TrimLeft(s + rest, drop) == TrimLeft(s, drop) + rest
  {
    if s == "" {
      assert s + rest == rest;
    } else if drop(s[0]) {
      assert (s + rest)[1..] == s[1..] + rest;
      TrimLeftStops(s[1..], rest, drop);
    }
  }

  /** Trimming on the right stops at the last character that stays. */
  lemma {:induction false} TrimRightStops(front: string, s: string, drop: char -> bool)
    requires front != "" && !drop(front[|front| - 1])
    ensures TrimRight(front + s, drop) == front + TrimRight(s, drop)
  {
    if s == "" {
      assert front + s == front;
    } else if drop(s[|s| - 1]) {
      assert (front + s)[..|front + s| - 1] == front + s[..|s| - 1];
      TrimRightStops(front, s[..|s| - 1], drop);
    }
  }

  lemma {:induction false} TrimRightCuts(s: string, drop: char -> bool)
    ensures TrimRight(s, drop) <= s
  {
    if s != "" && drop(s[|s| - 1]) {
      TrimRightCuts(s[..|s| - 1], drop);
    }
  }

  lemma {:induction false} TrimLeftCuts(s: string, drop: char -> bool)
    ensures forall c :: c in TrimLeft(s, drop) ==> c in s
  {
    if s != "" && drop(s[0]) {
      TrimLeftCuts(s[1..], drop);
    }
  }

  lemma {:induction false} BlankIsTrimmedAway(s: string)
    requires Blank(s)
    ensures TrimRight(s, IsSpace) == ""
  {
    hide IsSpace;
    if s != "" {
      BlankIsTrimmedAway(s[..|s| - 1]);
    }
  }

  function LowerChar(c: char): (lower: char)
    ensures 'A' <= c <= 'Z' ==> 'a' <= lower <= 'z' && lower as int - 'a' as int == c as int - 'A' as int
    ensures !('A' <= c <= 'Z') ==> lower == c
  {
    if 'A' <= c <= 'Z' then (c as int + 32) as char else c
  }

  function ToLower(s: string): (r: string)
    ensures |r| == |s| && forall i :: 0 <= i < |s| ==> r[i] == LowerChar(s[i])
  {
    if s == "" then "" else [LowerChar(s[0])] + ToLower(s[1..])
  }

  lemma LowerOfConcat(a: string, b: string)
    ensures ToLower(a + b) == ToLower(a) + ToLower(b)
  {
    hide LowerChar;
    assert |ToLower(a + b)| == |ToLower(a) + ToLower(b)|;
    forall i | 0 <= i < |a + b| ensures ToLower(a + b)[i] == (ToLower(a) + ToLower(b))[i] {
      assert (a + b)[i] == if i < |a| then a[i] else b[i - |a|];
    }
  }

  /** Blanks around a text that neither begins nor ends in one are trimmed away, and nothing else. */
  lemma TrimSpaceCore(before: string, core: string, after: string)
    requires Blank(before) && Blank(after)
    requires core != "" && !IsSpace(core[0]) && !IsSpace(core[|core| - 1])
    ensures TrimSpace(before + core + after) == core
  {
    hide IsSpace;
    assert before + core + after == before + (core + after);
    TrimLeftStops(before, core + after, IsSpace);
    BlankFront(before);
    assert "" + (core + after) == core + after;
    TrimRightStops(core, after, IsSpace);
    BlankIsTrimmedAway(after);
    assert core + "" == core;
  }

  lemma {:induction false} BlankFront(s: string)
    requires Blank(s)
    ensures TrimLeft(s, IsSpace) == ""
  {
    hide IsSpace;
    if s != "" {
      BlankFront(s[1..]);
    }
  }

  /** The characters of Go's `unicode.IsSpace` in ASCII, and no printable one. */
  lemma AsciiSpaces(c: char)
    requires c < '\U{80}'
    ensures IsSpace(c) <==> c in {'\t', '\n', '\U{0b}', '\U{0c}', '\r', ' '}
  {
  }

  lemma {:induction false} FirstAny(s: string, t: string, chars: set<char>)
    requires FreeOf(s, chars) && (t == "" || t[0] in chars)
    ensures IndexAny(s + t, chars) == if t == "" then -1 else |s|
  {
    if s == "" {
      assert s + t == t;
    } else {
      assert (s + t)[1..] == s[1..] + t;
      FirstAny(s[1..], t, chars);
    }
  }

  lemma {:induction false} LastAfter(s: string, c: char, t: string)
    requires c !in t
    ensures LastIndex(s + [c] + t, c) == |s|
  {
    var u := s + [c] + t;
    if t != "" {
      var front := t[..|t| - 1];
      assert u[..|u| - 1] == s + [c] + front;
      assert u[|u| - 1] == t[|t| - 1];
      LastAfter(s, c, front);
    }
  }

  // ---- Labels ----

  /** The dot-separated parts of `s`. */
  function Labels(s: string): seq<string> {
    var i := IndexAny(s, {'.'});
    if i < 0 then [s] else [s[..i]] + Labels(s[i + 1..])
  }

  function LastLabel(s: string): string {
    s[LastIndex(s, '.') + 1..]
  }

  lemma LabelsCut(head: string, rest: string)
    requires '.' !in head
    ensures Labels(head + "." + rest) == [head] + Labels(rest)
  {
    var s := head + "." + rest;
    assert s == head + ("." + rest);
    FirstAny(head, "." + rest, {'.'});
    assert s[..|head|] == head && s[|head| + 1..] == rest;
  }

  lemma LabelsWhole(s: string)
    requires '.' !in s
    ensures Labels(s) == [s]
  {
    IndexAnyIsFirst(s, {'.'});
  }

  lemma {:induction false} LabelsJoin(a: string, b: string)
    ensures Labels(a + "." + b) == Labels(a) + Labels(b)
    decreases |a|
  {
    hide IndexAny;
    IndexAnyIsFirst(a, {'.'});
    var i := IndexAny(a, {'.'});
    if i < 0 {
      LabelsWhole(a);
      LabelsCut(a, b);
    } else {
      var head, rest := a[..i], a[i + 1..];
      assert a + "." + b == head + "." + (rest + "." + b);
      LabelsCut(head, rest + "." + b);
      LabelsJoin(rest, b);
    }
  }

  lemma LabelsOfOne(s: string)
    ensures |Labels(s)| >= 1
    ensures |Labels(s)| == 1 <==> '.' !in s
  {
    IndexAnyIsFirst(s, {'.'});
    var i := IndexAny(s, {'.'});
    if i >= 0 {
      assert |Labels(s[i + 1..])| >= 1;
    }
  }

  lemma LastLabelIsLast(s: string)
    ensures |Labels(s)| >= 1 && LastLabel(s) == Labels(s)[|Labels(s)| - 1]
    ensures '.' !in LastLabel(s)
  {
    LastIndexIsLast(s, '.');
    var i := LastIndex(s, '.');
    LabelsOfOne(s);
    if i < 0 {
      assert s[0..] == s;
      LabelsWhole(s);
    } else {
      var head, tail := s[..i], s[i + 1..];
      assert s == head + "." + tail;
      LabelsJoin(head, tail);
      LabelsWhole(tail);
    }
  }
}
