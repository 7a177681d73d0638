/** Shell-style glob matching with the semantics of Python's `fnmatch`
    (on a POSIX host, where names are not case-folded): the whole name must
    match; `*` matches any run of characters, `?` exactly one character,
    `[...]` one character of a class (`[!...]` negates it, `a-z` is a
    range, a `]` right after the opening bracket is a member, a reversed
    range such as `z-a` is deleted, and a `!` that this deletion brings to
    the front negates too), and a `[` with no closing `]` is an ordinary
    character. No pattern is rejected. */
module Glob {

  import opened Wrappers

  datatype ClassItem = Single(c: char) | Range(lo: char, hi: char)

  datatype Token =
    | Star
    | AnyChar
    | Lit(c: char)
    | Class(negated: bool, items: seq<ClassItem>)

  /** Does character `c` belong to one of the class items? A range whose
      bounds are reversed contains nothing. */
  predicate InItems(items: seq<ClassItem>, c: char) {
    exists i :: 0 <= i < |items| && InItem(items[i], c)
  }

  predicate InItem(item: ClassItem, c: char) {
    match item
    case Single(x) => c == x
    case Range(lo, hi) => lo <= c <= hi
  }

  /** The items of a class body: `x-y` is a range when a character follows
      the dash; any other character, including a leading or trailing dash,
      stands for itself. */
  function ClassItems(body: string): seq<ClassItem> {
    if body == [] then []
    else if |body| >= 3 && body[1] == '-' then [Range(body[0], body[2])] + ClassItems(body[3..])
    else [Single(body[0])] + ClassItems(body[1..])
  }

  /** Index of the first `]` in `p` at or after `from`. */
  function FindClose(p: string, from: nat): (r: Option<nat>)
    decreases |p| - from
    ensures r.Some? ==> from <= r.value < |p| && p[r.value] == ']'
    ensures r.Some? ==> forall k :: from <= k < r.value ==> p[k] != ']'
    ensures r.None? ==> forall k :: from <= k < |p| ==> p[k] != ']'
  {
    if from >= |p| then None
    else if p[from] == ']' then Some(from)
    else FindClose(p, from + 1)
  }

  /** For a pattern starting with `[`: the index of the `]` that closes the
      class, skipping a leading `!` and a `]` that is the class's first
      member. */
  function ClassEnd(p: string): (r: Option<nat>)
    requires |p| > 0 && p[0] == '['
    ensures r.Some? ==> 2 <= r.value < |p| && p[r.value] == ']'
  {
    var j := if 1 < |p| && p[1] == '!' then 2 else 1;
    var j' := if j < |p| && p[j] == ']' then j + 1 else j;
    FindClose(p, j')
  }

  /** A range whose bounds are reversed; the translation deletes it from
      the class text. */
  predicate IsReversed(item: ClassItem) {
    item.Range? && item.lo > item.hi
  }

  /** The items left once the reversed ranges are deleted. */
  function LiveItems(items: seq<ClassItem>): seq<ClassItem> {
    if items == [] then []
    else if IsReversed(items[0]) then LiveItems(items[1..])
    else [items[0]] + LiveItems(items[1..])
  }

  /** Does the class text start with `!` once reversed ranges are deleted? */
  predicate LeadsWithBang(live: seq<ClassItem>) {
    live != [] && (live[0] == Single('!') || (live[0].Range? && live[0].lo == '!'))
  }

  /** The class token for a bracket body (the text between `[` and `]`).
      A leading `!` negates. The translation looks for that `!` only after
      deleting reversed ranges, so `[z-a!b]` is negated too: the `!` then
      negates, and when it was the low end of a range `!-y`, the dash and
      `y` become plain members. */
  function ClassToken(body: string): Token {
    if |body| > 0 && body[0] == '!' then Class(true, ClassItems(body[1..]))
    else
      var live := LiveItems(ClassItems(body));
      if !LeadsWithBang(live) then Class(false, ClassItems(body))
      else if live[0].Single? then Class(true, live[1..])
      else Class(true, [Single('-'), Single(live[0].hi)] + live[1..])
  }

  /** Translation of a pattern into tokens. Total: a malformed bracket
      becomes a literal `[`. */
  function Compile(p: string): (r: seq<Token>)
    decreases |p|
  {
    if p == [] then []
    else if p[0] == '*' then [Star] + Compile(p[1..])
    else if p[0] == '?' then [AnyChar] + Compile(p[1..])
    else if p[0] == '[' then
      match ClassEnd(p)
      case None => [Lit('[')] + Compile(p[1..])
      case Some(j) => [ClassToken(p[1..j])] + Compile(p[j + 1..])
    else [Lit(p[0])] + Compile(p[1..])
  }

  /** Does a token other than `*` accept the character `c`? */
  predicate Accepts(t: Token, c: char)
    requires !t.Star?
  {
    match t
    case AnyChar => true
    case Lit(x) => c == x
    case Class(negated, items) => InItems(items, c) != negated
  }

  /** Does the whole of `s` match the token sequence? */
  predicate Match(toks: seq<Token>, s: string)
    decreases |toks|, |s|
  {
    if toks == [] then s == []
    else if toks[0].Star? then Match(toks[1..], s) || (s != [] && Match(toks, s[1..]))
    else s != [] && Accepts(toks[0], s[0]) && Match(toks[1..], s[1..])
  }

  /** `fnmatch.fnmatch(name, pattern)`. */
  predicate FnMatch(name: string, pattern: string) {
    Match(Compile(pattern), name)
  }

  /** A pattern with none of the special characters `*`, `?` and `[`. */
  predicate IsLiteral(p: string) {
    forall i :: 0 <= i < |p| ==> p[i] != '*' && p[i] != '?' && p[i] != '['
  }

  function LitTokens(p: string): seq<Token> {
    if p == [] then [] else [Lit(p[0])] + LitTokens(p[1..])
  }

  lemma {:induction false} CompileLiteralPrefix(p: string, q: string)
    requires IsLiteral(p)
    ensures Compile(p + q) == LitTokens(p) + Compile(q)
  {
    if p != [] {
      assert (p + q)[0] == p[0];
      assert (p + q)[1..] == p[1..] + q;
      CompileLiteralPrefix(p[1..], q);
    } else {
      assert p + q == q;
    }
  }

  lemma PrefixStep(p: string, s: string)
    requires p != [] && s != [] && |p| <= |s|
    ensures s[..|p|] == p <==> s[0] == p[0] && s[1..][..|p| - 1] == p[1..]
    ensures s[1..][|p| - 1..] == s[|p|..]
  {
    assert s[..|p|] == [s[0]] + s[1..][..|p| - 1];
    assert p == [p[0]] + p[1..];
  }

  lemma {:induction false} MatchLitTokens(p: string, toks: seq<Token>, s: string)
    ensures Match(LitTokens(p) + toks, s) <==> |p| <= |s| && s[..|p|] == p && Match(toks, s[|p|..])
  {
    if p == [] {
      assert LitTokens(p) + toks == toks;
      assert s[..0] == p && s[0..] == s;
    } else {
      var all := LitTokens(p) + toks;
      assert all[0] == Lit(p[0]);
      assert all[1..] == LitTokens(p[1..]) + toks;
      assert Match(all, s) <==> s != [] && s[0] == p[0] && Match(all[1..], s[1..]);
      if s != [] {
        MatchLitTokens(p[1..], toks, s[1..]);
        if |p| <= |s| {
          PrefixStep(p, s);
        }
      }
    }
  }

  lemma {:induction false} StarMatchesAll(toks: seq<Token>, s: string)
    requires toks == [Star]
    ensures Match(toks, s)
    decreases |s|
  {
    assert toks[1..] == [];
    if s != [] {
      StarMatchesAll(toks, s[1..]);
    }
  }

  /** A pattern without special characters matches exactly the name equal
      to it. */
  lemma LiteralMatchesOnlyItself(pattern: string, name: string)
    requires IsLiteral(pattern)
    ensures FnMatch(name, pattern) <==> name == pattern
  {
    CompileLiteralPrefix(pattern, []);
    assert pattern + [] == pattern;
    assert LitTokens(pattern) + [] == LitTokens(pattern);
    MatchLitTokens(pattern, [], name);
  }

  /** `prefix*` matches exactly the names that start with `prefix`. */
  lemma LiteralStarMatchesPrefix(prefix: string, name: string)
    requires IsLiteral(prefix)
    ensures FnMatch(name, prefix + "*") <==> |prefix| <= |name| && name[..|prefix|] == prefix
  {
    CompileLiteralPrefix(prefix, "*");
    assert Compile("*") == [Star] by {
      assert "*"[1..] == [];
    }
    MatchLitTokens(prefix, [Star], name);
    if |prefix| <= |name| {
      StarMatchesAll([Star], name[|prefix|..]);
    }
  }

  /** `*` alone matches every name. */
  lemma StarPatternMatchesEverything(name: string)
    ensures FnMatch(name, "*")
  {
    assert Compile("*") == [Star] by {
      assert "*"[1..] == [];
    }
    StarMatchesAll([Star], name);
  }

  /** A `*` followed by further tokens skips any run of characters: the
      rest must match some suffix of the name. */
  lemma {:induction false} StarSkipsAnyRun(toks: seq<Token>, s: string)
    ensures Match([Star] + toks, s) <==> exists k :: 0 <= k <= |s| && Match(toks, s[k..])
    decreases |s|
  {
    var all := [Star] + toks;
    assert all[0] == Star && all[1..] == toks;
    assert s[0..] == s;
    if s != [] {
      StarSkipsAnyRun(toks, s[1..]);
      if Match(all, s) && !Match(toks, s) {
        var k :| 0 <= k <= |s[1..]| && Match(toks, s[1..][k..]);
        assert s[1..][k..] == s[k + 1..];
      }
      if exists k :: 0 <= k <= |s| && Match(toks, s[k..]) {
        var k :| 0 <= k <= |s| && Match(toks, s[k..]);
        if k > 0 {
          assert s[1..][k - 1..] == s[k..];
        }
      }
    }
  }

  /** `*suffix` matches exactly the names that end with `suffix`. */
  lemma StarLiteralMatchesSuffix(suffix: string, name: string)
    requires IsLiteral(suffix)
    ensures FnMatch(name, "*" + suffix) <==>
      |suffix| <= |name| && name[|name| - |suffix|..] == suffix
  {
    CompileLiteralPrefix(suffix, []);
    assert suffix + [] == suffix && LitTokens(suffix) + [] == LitTokens(suffix);
    var p := "*" + suffix;
    assert p[0] == '*' && p[1..] == suffix;
    assert Compile(p) == [Star] + LitTokens(suffix);
    StarSkipsAnyRun(LitTokens(suffix), name);
    forall k | 0 <= k <= |name|
      ensures Match(LitTokens(suffix), name[k..]) <==> name[k..] == suffix
    {
      MatchLitTokens(suffix, [], name[k..]);
    }
    if |suffix| <= |name| && name[|name| - |suffix|..] == suffix {
      assert Match(LitTokens(suffix), name[|name| - |suffix|..]);
    }
  }

  /** A single token other than `*` matches exactly the one-character
      names whose character it accepts. */
  lemma SingleTokenMatch(t: Token, s: string)
    requires !t.Star?
    ensures Match([t], s) <==> |s| == 1 && Accepts(t, s[0])
  {
    assert [t][1..] == [];
    if s != [] {
      assert Match([], s[1..]) <==> |s| == 1;
    }
  }

  /** `?` alone matches exactly the one-character names. */
  lemma QuestionMatchesOneCharacter(name: string)
    ensures FnMatch(name, "?") <==> |name| == 1
  {
    assert Compile("?") == [AnyChar] by {
      assert "?"[1..] == [];
    }
    SingleTokenMatch(AnyChar, name);
  }

  lemma {:induction false} FindCloseAt(p: string, from: nat, close: nat)
    requires from <= close < |p| && p[close] == ']'
    requires forall k :: from <= k < close ==> p[k] != ']'
    ensures FindClose(p, from) == Some(close)
    decreases close - from
  {
    if from < close {
      FindCloseAt(p, from + 1, close);
    }
  }

  /** A pattern made of one closed bracket expression compiles to one
      class token. */
  lemma {:induction false} CompileOneBracket(p: string, close: nat)
    requires |p| > 0 && p[0] == '[' && close == |p| - 1
    requires ClassEnd(p) == Some(close)
    ensures Compile(p) == [ClassToken(p[1..close])]
  {
    assert p[close + 1..] == [];
  }

  /** The pattern `[body]`, or `[!body]` when negated. */
  function BracketPattern(body: string, negated: bool): string {
    (if negated then "[!" else "[") + body + "]"
  }

  /** Where the bracket pattern's class closes, and what lies inside. */
  lemma BracketPatternShape(body: string, negated: bool)
    requires body != [] && body[0] != '!'
    requires forall k :: 0 <= k < |body| ==> body[k] != ']'
    ensures var p := BracketPattern(body, negated);
      && |p| > 0 && p[0] == '['
      && ClassEnd(p) == Some(|p| - 1)
      && p[1..|p| - 1] == (if negated then "!" else "") + body
  {
    var open: string := if negated then "[!" else "[";
    var p := BracketPattern(body, negated);
    var close := |open| + |body|;
    assert p == open + body + "]";
    assert p[0] == '[';
    assert negated ==> p[1] == '!';
    assert p[|open|] == body[0];
    assert p[close] == ']';
    assert forall k :: |open| <= k < close ==> p[k] == body[k - |open|];
    FindCloseAt(p, |open| + 1, close);
    assert p[1..close] == open[1..] + body;
  }

  /** The token of a bracket body with an optional leading `!`, when no
      `!` surfaces after the reversed ranges are deleted. */
  lemma ClassTokenOfBody(body: string, negated: bool)
    requires body != [] && body[0] != '!'
    requires negated || !LeadsWithBang(LiveItems(ClassItems(body)))
    ensures ClassToken((if negated then "!" else "") + body) == Class(negated, ClassItems(body))
  {
    var inner := (if negated then "!" else "") + body;
    if negated {
      assert inner[0] == '!' && inner[1..] == body;
    } else {
      assert inner == body;
    }
  }

  /** A bracket expression `[body]` (body non-empty, no `]` in it and not
      starting with `!`) matches exactly the one-character names whose
      character is in the class; `[!body]` matches the others. The
      un-negated form needs that no `!` surfaces once reversed ranges are
      deleted (see `BangAfterReversedRangeNegates`). */
  lemma BracketMatchesOneClassCharacter(body: string, negated: bool, name: string)
    requires body != [] && body[0] != '!'
    requires forall k :: 0 <= k < |body| ==> body[k] != ']'
    requires negated || !LeadsWithBang(LiveItems(ClassItems(body)))
    ensures FnMatch(name, BracketPattern(body, negated)) <==>
      |name| == 1 && InItems(ClassItems(body), name[0]) != negated
  {
    var p := BracketPattern(body, negated);
    var tok := Class(negated, ClassItems(body));
    BracketPatternShape(body, negated);
    ClassTokenOfBody(body, negated);
    CompileOneBracket(p, |p| - 1);
    assert Compile(p) == [tok];
    SingleTokenMatch(tok, name);
  }

  /** The token of an un-negated body whose live items start with `!`. */
  lemma ClassTokenAfterBang(body: string)
    requires body != [] && body[0] != '!'
    requires LiveItems(ClassItems(body)) != [] && LiveItems(ClassItems(body))[0] == Single('!')
    ensures ClassToken("" + body) == Class(true, LiveItems(ClassItems(body))[1..])
  {
    assert "" + body == body;
  }

  /** An un-negated class whose text starts with `!` once its reversed
      ranges are deleted is negated by that `!`: it matches exactly the one
      character names outside the remaining items. */
  lemma BangAfterReversedRangeNegates(body: string, name: string)
    requires body != [] && body[0] != '!'
    requires forall k :: 0 <= k < |body| ==> body[k] != ']'
    requires LiveItems(ClassItems(body)) != [] && LiveItems(ClassItems(body))[0] == Single('!')
    ensures FnMatch(name, BracketPattern(body, false)) <==>
      |name| == 1 && !InItems(LiveItems(ClassItems(body))[1..], name[0])
  {
    var p := BracketPattern(body, false);
    var tok := Class(true, LiveItems(ClassItems(body))[1..]);
    BracketPatternShape(body, false);
    ClassTokenAfterBang(body);
    CompileOneBracket(p, |p| - 1);
    assert Compile(p) == [tok];
    SingleTokenMatch(tok, name);
  }

  /** The token of an un-negated body whose live items start with a range
      `!-y`: the class is negated, and `-` and `y` become plain members. */
  lemma ClassTokenAfterBangRange(body: string)
    requires body != [] && body[0] != '!'
    requires LiveItems(ClassItems(body)) != []
    requires LiveItems(ClassItems(body))[0].Range? && LiveItems(ClassItems(body))[0].lo == '!'
    ensures ClassToken("" + body) ==
      Class(true, [Single('-'), Single(LiveItems(ClassItems(body))[0].hi)] + LiveItems(ClassItems(body))[1..])
  {
    assert "" + body == body;
  }

  /** Membership in a class whose first two items are `a` and `b`. */
  lemma InItemsAfterTwo(a: ClassItem, b: ClassItem, rest: seq<ClassItem>, c: char)
    ensures InItems([a, b] + rest, c) <==> InItem(a, c) || InItem(b, c) || InItems(rest, c)
  {
    var all := [a, b] + rest;
    assert all[0] == a && all[1] == b;
    if InItems(rest, c) {
      var i :| 0 <= i < |rest| && InItem(rest[i], c);
      assert all[i + 2] == rest[i];
    }
    if InItems(all, c) {
      var i :| 0 <= i < |all| && InItem(all[i], c);
      if i >= 2 {
        assert all[i] == rest[i - 2];
      }
    }
  }

  /** An un-negated class whose text starts with a range `!-y` once its
      reversed ranges are deleted is negated by that `!`: it matches exactly
      the one character names other than `-` and `y` and outside the
      remaining items. */
  lemma BangRangeAfterReversedRangeNegates(body: string, name: string)
    requires body != [] && body[0] != '!'
    requires forall k :: 0 <= k < |body| ==> body[k] != ']'
    requires LiveItems(ClassItems(body)) != []
    requires LiveItems(ClassItems(body))[0].Range? && LiveItems(ClassItems(body))[0].lo == '!'
    ensures FnMatch(name, BracketPattern(body, false)) <==>
      |name| == 1 && name[0] != '-' && name[0] != LiveItems(ClassItems(body))[0].hi &&
      !InItems(LiveItems(ClassItems(body))[1..], name[0])
  {
    var p := BracketPattern(body, false);
    var live := LiveItems(ClassItems(body));
    var tok := Class(true, [Single('-'), Single(live[0].hi)] + live[1..]);
    BracketPatternShape(body, false);
    ClassTokenAfterBangRange(body);
    CompileOneBracket(p, |p| - 1);
    assert Compile(p) == [tok];
    SingleTokenMatch(tok, name);
    if |name| == 1 {
      InItemsAfterTwo(Single('-'), Single(live[0].hi), live[1..], name[0]);
    }
  }

  /** `[z-a!]` matches every one-character name: deleting the reversed
      range `z-a` leaves `!`, which translates to "any character". The
      texts are parameters fixed by the requires so that the solver does
      not unfold `Compile` and `Match` on literals. */
  lemma ReversedRangeBangExample(body: string, name: string)
    requires body == "z-a!" && |name| == 1
    ensures FnMatch(name, BracketPattern(body, false))
  {
    assert ClassItems(body) == [Range('z', 'a'), Single('!')] by {
      assert body[3..] == "!";
      assert ClassItems(body[3..]) == [Single('!')] by {
        assert body[3..][1..] == [];
      }
    }
    assert LiveItems([Range('z', 'a'), Single('!')]) == [Single('!')] by {
      assert [Range('z', 'a'), Single('!')][1..] == [Single('!')];
      assert [Single('!')][1..] == [];
    }
    BangAfterReversedRangeNegates(body, name);
  }

  /** A `[` that is never closed stands for itself. */
  lemma UnclosedBracketIsLiteral(name: string)
    ensures FnMatch(name, "[") <==> name == "["
  {
    assert ClassEnd("[") == None;
    assert Compile("[") == [Lit('[')] by {
      assert "["[1..] == [];
    }
    SingleTokenMatch(Lit('['), name);
  }

  /** The documented example: `sensor.*` selects `sensor.temperature` and
      not `switch.temperature`. The texts are parameters fixed by the
      requires so that the solver does not unfold `Compile` and `Match` on
      literals. */
  lemma SensorGlobExample(pattern: string, sensor: string, switch: string)
    requires pattern == "sensor.*"
    requires sensor == "sensor.temperature" && switch == "switch.temperature"
    ensures FnMatch(sensor, pattern) && !FnMatch(switch, pattern)
  {
    var prefix := "sensor.";
    assert pattern == prefix + "*";
    LiteralStarMatchesPrefix(prefix, sensor);
    LiteralStarMatchesPrefix(prefix, switch);
    assert sensor[..|prefix|] == prefix;
    assert switch[1] != prefix[1];
  }
}
