/** Wildcard matching of strings and paths (core/wildcard.go). A string is a sequence of runes. */
module Wildcard {
  import opened Wrappers
  import opened Patterns

  datatype Token = Literal(rune: char) | Any | Star

  datatype WildcardError = TrailingEscape

  /** An escape character stands before every escaped character, so none may end the pattern. */
  predicate WellFormed(pattern: string) {
    if pattern == [] then true
    else if pattern[0] == '\\' then |pattern| >= 2 && WellFormed(pattern[2..])
    else WellFormed(pattern[1..])
  }

  /** What a raw pattern means. A malformed one matches nothing. */
  predicate Matches(pattern: string, value: string)
    decreases |pattern| + |value|
  {
    if pattern == [] then value == []
    else if pattern[0] == '\\' then
      |pattern| >= 2 && value != [] && value[0] == pattern[1] && Matches(pattern[2..], value[1..])
    else if pattern[0] == '?' then value != [] && Matches(pattern[1..], value[1..])
    else if pattern[0] == '*' then Matches(pattern[1..], value) || (value != [] && Matches(pattern, value[1..]))
    else value != [] && value[0] == pattern[0] && Matches(pattern[1..], value[1..])
  }

  function IsStar(): Token -> bool {
    (t: Token) => t.Star?
  }

  function Accepts(): (Token, char) -> bool {
    (t: Token, c: char) => t.Any? || (t.Literal? && t.rune == c)
  }

  /** The tokens of a well-formed pattern, one for each unescaped star. */
  function Tokens(pattern: string): seq<Token>
    requires WellFormed(pattern)
  {
    if pattern == [] then []
    else if pattern[0] == '\\' then [Literal(pattern[1])] + Tokens(pattern[2..])
    else if pattern[0] == '?' then [Any] + Tokens(pattern[1..])
    else if pattern[0] == '*' then [Star] + Tokens(pattern[1..])
    else [Literal(pattern[0])] + Tokens(pattern[1..])
  }

  lemma {:induction false} TokensMeanPattern(pattern: string, value: string)
    requires WellFormed(pattern)
    ensures Front(IsStar(), Accepts(), Tokens(pattern), value) == Matches(pattern, value)
    decreases |pattern| + |value|
  {
    if pattern != [] {
      var tokens := Tokens(pattern);
      var rest := if pattern[0] == '\\' then pattern[2..] else pattern[1..];
      assert tokens[1..] == Tokens(rest);
      if pattern[0] == '*' {
        TokensMeanPattern(rest, value);
        if value != [] {
          TokensMeanPattern(pattern, value[1..]);
        }
      } else if value != [] {
        TokensMeanPattern(rest, value[1..]);
      }
    }
  }

  /** Adding a token, but no second star after a star. */
  function Push(tokens: seq<Token>, token: Token): seq<Token> {
    if token.Star? && tokens != [] && tokens[|tokens| - 1].Star? then tokens else tokens + [token]
  }

  function Collapse(tokens: seq<Token>): seq<Token> {
    if tokens == [] then [] else Push(Collapse(tokens[..|tokens| - 1]), tokens[|tokens| - 1])
  }

  lemma DoubleStar(tokens: seq<Token>, value: string)
    requires tokens != [] && tokens[|tokens| - 1].Star?
    ensures Back(IsStar(), Accepts(), tokens + [Star], value) == Back(IsStar(), Accepts(), tokens, value)
  {
    var star, one := IsStar(), Accepts();
    var doubled := tokens + [Star];
    assert doubled[..|doubled| - 1] == tokens;
    BackStar(star, one, doubled, value);
    BackStar(star, one, tokens, value);
    assert value[..|value|] == value;
    if k :| 0 <= k <= |value| && Back(star, one, tokens, value[..k]) {
      BackStar(star, one, tokens, value[..k]);
      var j :| 0 <= j <= k && Back(star, one, tokens[..|tokens| - 1], value[..k][..j]);
      assert value[..k][..j] == value[..j];
    }
  }

  lemma SameLast(a: seq<Token>, b: seq<Token>, token: Token, value: string)
    requires forall v: string :: Back(IsStar(), Accepts(), a, v) == Back(IsStar(), Accepts(), b, v)
    ensures Back(IsStar(), Accepts(), a + [token], value) == Back(IsStar(), Accepts(), b + [token], value)
    decreases |value|
  {
    assert (a + [token])[..|a|] == a && (b + [token])[..|b|] == b;
    if value != [] && token.Star? {
      SameLast(a, b, token, value[..|value| - 1]);
    }
  }

  /** Collapsing stars keeps the meaning. */
  lemma {:induction false} CollapseKeepsMeaning(tokens: seq<Token>, value: string)
    ensures Back(IsStar(), Accepts(), Collapse(tokens), value) == Back(IsStar(), Accepts(), tokens, value)
    decreases |tokens|
  {
    if tokens != [] {
      var init, last := tokens[..|tokens| - 1], tokens[|tokens| - 1];
      assert tokens == init + [last];
      forall v: string ensures Back(IsStar(), Accepts(), Collapse(init), v) == Back(IsStar(), Accepts(), init, v) {
        CollapseKeepsMeaning(init, v);
      }
      SameLast(Collapse(init), init, last, value);
      if last.Star? && Collapse(init) != [] && Collapse(init)[|Collapse(init)| - 1].Star? {
        DoubleStar(Collapse(init), value);
      }
    }
  }

  lemma {:induction false} SuffixWellFormed(pattern: string, done: seq<Token>, i: nat)
    requires i < |pattern| && WellFormed(pattern[i..])
    ensures pattern[i] == '\\' ==>
      && i + 1 < |pattern| && WellFormed(pattern[i + 2..])
      && done + Tokens(pattern[i..]) == (done + [Literal(pattern[i + 1])]) + Tokens(pattern[i + 2..])
    ensures pattern[i] != '\\' ==>
      && WellFormed(pattern[i + 1..])
      && done + Tokens(pattern[i..]) == (done + [TokenOf(pattern[i])]) + Tokens(pattern[i + 1..])
  {
    var rest := pattern[i..];
    if pattern[i] == '\\' {
      assert rest[2..] == pattern[i + 2..];
      ConcatCons(done, Literal(rest[1]), Tokens(rest[2..]));
    } else {
      assert rest[1..] == pattern[i + 1..];
      ConcatCons(done, TokenOf(rest[0]), Tokens(rest[1..]));
    }
  }

  lemma ConcatCons(done: seq<Token>, token: Token, rest: seq<Token>)
    ensures done + ([token] + rest) == (done + [token]) + rest
  {
  }

  function TokenOf(rune: char): Token {
    if rune == '?' then Any else if rune == '*' then Star else Literal(rune)
  }

  lemma CollapseSnoc(done: seq<Token>, token: Token)
    ensures Collapse(done + [token]) == Push(Collapse(done), token)
  {
    assert (done + [token])[..|done|] == done;
  }

  /** Parses a pattern; the only error is an escape at its end. */
  method ParsePattern(pattern: string) returns (r: Result<seq<Token>, WildcardError>)
    ensures r.Ok? <==> WellFormed(pattern)
    ensures r.Ok? ==> r.value == Collapse(Tokens(pattern))
  {
    var tokens: seq<Token> := [];
    ghost var done: seq<Token> := [];
    var i := 0;
    assert pattern[0..] == pattern;
    while i < |pattern|
      invariant i <= |pattern|
      invariant WellFormed(pattern) == WellFormed(pattern[i..])
      invariant WellFormed(pattern) ==> Tokens(pattern) == done + Tokens(pattern[i..])
      invariant tokens == Collapse(done)
    {
      var rune := pattern[i];
      EscapeAt(pattern, i);
      if WellFormed(pattern) {
        SuffixWellFormed(pattern, done, i);
      }
      var token;
      if rune == '\\' {
        if i + 1 >= |pattern| {
          return Err(TrailingEscape);
        }
        i := i + 1;
        token := Literal(pattern[i]);
        tokens := tokens + [token];
      } else if rune == '?' {
        token := Any;
        tokens := tokens + [token];
      } else if rune == '*' {
        token := Star;
        if |tokens| == 0 || !tokens[|tokens| - 1].Star? {
          tokens := tokens + [token];
        }
      } else {
        token := Literal(rune);
        tokens := tokens + [token];
      }
      CollapseSnoc(done, token);
      done := done + [token];
      i := i + 1;
    }
    assert done + [] == done;
    return Ok(tokens);
  }

  lemma EscapeAt(pattern: string, i: nat)
    requires i < |pattern|
    ensures pattern[i] == '\\' ==> (WellFormed(pattern[i..]) <==> i + 1 < |pattern| && WellFormed(pattern[i + 2..]))
    ensures pattern[i] != '\\' ==> (WellFormed(pattern[i..]) <==> WellFormed(pattern[i + 1..]))
  {
    if i + 1 < |pattern| {
      assert pattern[i..][2..] == pattern[i + 2..];
    }
    assert pattern[i..][1..] == pattern[i + 1..];
  }

  ghost predicate IsRow(row: array<bool>, tokens: seq<Token>, value: string)
    reads row
  {
    && row.Length == |value| + 1
    && forall i | 0 <= i <= |value| :: row[i] == Back(IsStar(), Accepts(), tokens, value[..i])
  }

  /** The row for one more token. */
  method NextRow(dp: array<bool>, ghost tokens: seq<Token>, token: Token, value: string) returns (next: array<bool>)
    requires IsRow(dp, tokens, value)
    ensures fresh(next) && IsRow(next, tokens + [token], value)
  {
    hide Back;
    next := new bool[|value| + 1](_ => false);
    RowMeaning(tokens, token, value, 0);
    if token.Star? {
      next[0] := dp[0];
    }
    var i := 1;
    while i <= |value|
      invariant 1 <= i <= |value| + 1
      invariant forall j | 0 <= j < i :: next[j] == Back(IsStar(), Accepts(), tokens + [token], value[..j])
    {
      RowMeaning(tokens, token, value, i);
      match token {
        case Star => next[i] := dp[i] || next[i - 1];
        case Any => next[i] := dp[i - 1];
        case Literal(rune) => next[i] := dp[i - 1] && value[i - 1] == rune;
      }
      i := i + 1;
    }
  }

  /** The dynamic program over one rolling row. */
  method MatchTokens(tokens: seq<Token>, value: string) returns (matched: bool)
    ensures matched == Back(IsStar(), Accepts(), tokens, value)
  {
    var dp := new bool[|value| + 1](i => i == 0);
    assert IsRow(dp, [], value);
    hide Back;
    assert tokens[..0] == [];
    for t := 0 to |tokens|
      invariant IsRow(dp, tokens[..t], value)
    {
      dp := NextRow(dp, tokens[..t], tokens[t], value);
      assert tokens[..t + 1] == tokens[..t] + [tokens[t]];
    }
    assert tokens[..|tokens|] == tokens && value[..|value|] == value;
    return dp[|value|];
  }

  ghost predicate Row(tokens: seq<Token>, token: Token, value: string, i: nat)
    requires i <= |value|
  {
    var star, one := IsStar(), Accepts();
    match token
    case Star => Back(star, one, tokens, value[..i]) || (i > 0 && Back(star, one, tokens + [Star], value[..i - 1]))
    case Any => i > 0 && Back(star, one, tokens, value[..i - 1])
    case Literal(rune) => i > 0 && Back(star, one, tokens, value[..i - 1]) && value[i - 1] == rune
  }

  lemma RowMeaning(tokens: seq<Token>, token: Token, value: string, i: nat)
    requires i <= |value|
    ensures Back(IsStar(), Accepts(), tokens + [token], value[..i]) == Row(tokens, token, value, i)
  {
    assert (tokens + [token])[..|tokens|] == tokens;
    if i > 0 {
      assert value[..i][..i - 1] == value[..i - 1];
    }
  }

  /** The row program computes the meaning of the raw pattern. */
  lemma CollapsedTokensMeanPattern(pattern: string, value: string)
    requires WellFormed(pattern)
    ensures Back(IsStar(), Accepts(), Collapse(Tokens(pattern)), value) == Matches(pattern, value)
  {
    CollapseKeepsMeaning(Tokens(pattern), value);
    BackIsFront(IsStar(), Accepts(), Tokens(pattern), value);
    TokensMeanPattern(pattern, value);
  }

  method MatchWildcard(pattern: string, value: string) returns (r: Result<bool, WildcardError>)
    ensures r.Ok? <==> WellFormed(pattern)
    ensures r.Ok? ==> r.value == Matches(pattern, value)
  {
    var tokens := ParsePattern(pattern);
    if tokens.Err? {
      return Err(tokens.error);
    }
    var matched := MatchTokens(tokens.value, value);
    CollapsedTokensMeanPattern(pattern, value);
    return Ok(matched);
  }

  /** The first pattern that matches, unless a malformed one comes before it. */
  method FirstWildcardMatch(value: string, patterns: seq<string>) returns (r: Result<int, WildcardError>)
    ensures r.Ok? && r.value >= 0 ==> r.value < |patterns| && Matches(patterns[r.value], value)
    ensures r.Ok? ==> -1 <= r.value
    ensures r.Ok? ==> forall j | 0 <= j < (if r.value < 0 then |patterns| else r.value) ::
      WellFormed(patterns[j]) && !Matches(patterns[j], value)
    ensures r.Err? ==> exists i | 0 <= i < |patterns| ::
      !WellFormed(patterns[i]) && forall j | 0 <= j < i :: WellFormed(patterns[j]) && !Matches(patterns[j], value)
  {
    for i := 0 to |patterns|
      invariant forall j | 0 <= j < i :: WellFormed(patterns[j]) && !Matches(patterns[j], value)
    {
      var matched := MatchWildcard(patterns[i], value);
      if matched.Err? {
        return Err(matched.error);
      }
      if matched.value {
        return Ok(i);
      }
    }
    return Ok(-1);
  }

  // ---- What determines the meaning of a pattern ----

  predicate IsPlain(c: char) {
    c != '\\' && c != '?' && c != '*'
  }

  lemma {:induction false} TokensConcat(p: string, q: string)
    requires WellFormed(p)
    ensures WellFormed(p + q) <==> WellFormed(q)
    ensures WellFormed(q) ==> Tokens(p + q) == Tokens(p) + Tokens(q)
  {
    if p == [] {
      assert p + q == q;
    } else {
      var n := if p[0] == '\\' then 2 else 1;
      TokensConcat(p[n..], q);
      assert (p + q)[n..] == p[n..] + q;
    }
  }

  /** Two well-formed patterns in a row match what can be cut into a match of each. */
  lemma MatchesConcat(p: string, q: string, value: string)
    requires WellFormed(p) && WellFormed(q)
    ensures WellFormed(p + q)
    ensures Matches(p + q, value) <==> exists k | 0 <= k <= |value| :: Matches(p, value[..k]) && Matches(q, value[k..])
  {
    hide Front;
    TokensConcat(p, q);
    FrontConcat(IsStar(), Accepts(), Tokens(p), Tokens(q), value);
    TokensMeanPattern(p + q, value);
    forall k | 0 <= k <= |value|
      ensures Front(IsStar(), Accepts(), Tokens(p), value[..k]) == Matches(p, value[..k])
      ensures Front(IsStar(), Accepts(), Tokens(q), value[k..]) == Matches(q, value[k..])
    {
      TokensMeanPattern(p, value[..k]);
      TokensMeanPattern(q, value[k..]);
    }
  }

  /** The shortest patterns: a question mark matches one character, a star any number, an escaped
      character itself, and so does every other character but a lone escape. */
  lemma {:induction false} MatchesSingle(c: char, value: string)
    ensures Matches("", value) <==> value == ""
    ensures Matches("?", value) <==> |value| == 1
    ensures Matches("*", value)
    ensures WellFormed(['\\', c]) && (Matches(['\\', c], value) <==> value == [c])
    ensures IsPlain(c) ==> (Matches([c], value) <==> value == [c])
    ensures !WellFormed("\\") && WellFormed("") && (c != '\\' ==> WellFormed([c]))
    decreases |value|
  {
    assert "?"[1..] == "" && "*"[1..] == "" && [c][1..] == "" && ['\\', c][2..] == "";
    if value != [] {
      MatchesSingle(c, value[1..]);
    }
  }

  // ---- Paths ----

  predicate IsSeparator(c: char) {
    c == '/' || c == '\\'
  }

  function RunLength(path: string): (n: nat)
    ensures n <= |path|
    ensures forall i | 0 <= i < n :: !IsSeparator(path[i])
    ensures n < |path| ==> IsSeparator(path[n])
  {
    if path == [] || IsSeparator(path[0]) then 0 else 1 + RunLength(path[1..])
  }

  /** The maximal separator-free parts of a path. */
  function SplitPath(path: string): (parts: seq<string>)
    ensures forall i | 0 <= i < |parts| :: parts[i] != [] && forall c | c in parts[i] :: !IsSeparator(c)
    decreases |path|
  {
    if path == [] then []
    else if IsSeparator(path[0]) then SplitPath(path[1..])
    else
      var n := RunLength(path);
      [path[..n]] + SplitPath(path[n..])
  }

  ghost predicate AllSeparators(s: string) {
    forall i | 0 <= i < |s| :: IsSeparator(s[i])
  }

  /** Separators, part, separators, part and so on, ending with separators. */
  function Interleaved(gaps: seq<string>, parts: seq<string>): string
    requires |gaps| == |parts| + 1
  {
    if parts == [] then gaps[0] else gaps[0] + parts[0] + Interleaved(gaps[1..], parts[1..])
  }

  /** The gaps of a path around these parts: separators only, and at least one between two parts. */
  ghost predicate AreGaps(gaps: seq<string>, parts: seq<string>, path: string) {
    && |gaps| == |parts| + 1 && Interleaved(gaps, parts) == path
    && (forall i | 0 <= i < |gaps| :: AllSeparators(gaps[i]))
    && forall i | 0 < i < |parts| :: gaps[i] != []
  }

  /** Nothing of a path is missing from its parts, and no part can be longer. */
  lemma {:induction false} SplitPathMeaning(path: string) returns (gaps: seq<string>)
    ensures AreGaps(gaps, SplitPath(path), path)
    decreases |path|
  {
    if path == [] {
      gaps := [[]];
    } else if IsSeparator(path[0]) {
      var rest := SplitPathMeaning(path[1..]);
      gaps := [[path[0]] + rest[0]] + rest[1..];
      MoreGap(path[0], rest, SplitPath(path[1..]));
      assert path == [path[0]] + path[1..];
    } else {
      var n := RunLength(path);
      var rest := SplitPathMeaning(path[n..]);
      gaps := [[]] + rest;
      var parts := SplitPath(path[n..]);
      assert gaps[1..] == rest && ([path[..n]] + parts)[1..] == parts;
      assert path == path[..n] + path[n..];
      if parts != [] && rest[0] == [] {
        GapNeeded(rest, parts, path[n..]);
      }
    }
  }

  lemma MoreGap(c: char, gaps: seq<string>, parts: seq<string>)
    requires |gaps| == |parts| + 1
    ensures Interleaved([[c] + gaps[0]] + gaps[1..], parts) == [c] + Interleaved(gaps, parts)
  {
    var more := [[c] + gaps[0]] + gaps[1..];
    assert more[1..] == gaps[1..];
    if parts != [] {
      assert ([c] + gaps[0]) + parts[0] + Interleaved(gaps[1..], parts[1..])
          == [c] + (gaps[0] + parts[0] + Interleaved(gaps[1..], parts[1..]));
    }
  }

  /** A path without a gap in front begins with its first part. */
  lemma GapNeeded(gaps: seq<string>, parts: seq<string>, path: string)
    requires AreGaps(gaps, parts, path) && parts != [] && gaps[0] == [] && parts[0] != []
    ensures path != [] && path[0] == parts[0][0]
  {
    assert gaps[0] + parts[0] == parts[0];
  }

  ghost predicate ArePartsOfPath(parts: seq<string>) {
    forall i | 0 <= i < |parts| :: parts[i] != [] && forall j | 0 <= j < |parts[i]| :: !IsSeparator(parts[i][j])
  }

  /** Whatever separator-free parts a path is made of with such gaps, they are the ones it is split into. */
  lemma {:induction false} SplitPathIsUnique(gaps: seq<string>, parts: seq<string>, path: string)
    requires AreGaps(gaps, parts, path) && ArePartsOfPath(parts)
    ensures SplitPath(path) == parts
    decreases |path|
  {
    if gaps[0] != [] {
      var c, rest := gaps[0][0], [gaps[0][1..]] + gaps[1..];
      assert [c] + rest[0] == gaps[0] && rest[1..] == gaps[1..];
      assert gaps == [[c] + rest[0]] + rest[1..];
      MoreGap(c, rest, parts);
      assert path[0] == c && path[1..] == Interleaved(rest, parts);
      assert AllSeparators(gaps[0]);
      SplitPathIsUnique(rest, parts, path[1..]);
    } else if parts != [] {
      var first, after := parts[0], Interleaved(gaps[1..], parts[1..]);
      assert gaps[0] + first == first;
      assert path[..|first|] == first && path[|first|..] == after;
      GapAfter(gaps, parts);
      RunIs(path, |first|);
      SplitPathIsUnique(gaps[1..], parts[1..], after);
    }
  }

  /** After the first part the path ends or goes on with a separator. */
  lemma GapAfter(gaps: seq<string>, parts: seq<string>)
    requires |gaps| == |parts| + 1 && parts != [] && AllSeparators(gaps[1]) && (|parts| > 1 ==> gaps[1] != [])
    ensures var after := Interleaved(gaps[1..], parts[1..]); after == [] || IsSeparator(after[0])
  {
    if |parts| > 1 {
      assert (gaps[1] + parts[1] + Interleaved(gaps[1..][1..], parts[1..][1..]))[0] == gaps[1][0];
    }
  }

  lemma {:induction false} RunIs(path: string, n: nat)
    requires n <= |path| && (forall i | 0 <= i < n :: !IsSeparator(path[i])) && (n < |path| ==> IsSeparator(path[n]))
    ensures RunLength(path) == n
  {
    if n > 0 {
      RunIs(path[1..], n - 1);
    }
  }

  /** The length of the unit a pattern begins with: an escaped wildcard or escape character, any
      other character, or nothing at a separator. */
  function UnitLength(pattern: string): (n: nat)
    requires pattern != []
    ensures n <= 2 && n <= |pattern|
  {
    if pattern[0] == '/' then 0
    else if pattern[0] == '\\' then
      if |pattern| > 1 && (pattern[1] == '*' || pattern[1] == '?' || pattern[1] == '\\') then 2 else 0
    else 1
  }

  function PatternRun(pattern: string): (n: nat)
    ensures n <= |pattern|
    ensures pattern != [] ==> (n == 0 <==> UnitLength(pattern) == 0)
  {
    if pattern == [] || UnitLength(pattern) == 0 then 0
    else UnitLength(pattern) + PatternRun(pattern[UnitLength(pattern)..])
  }

  /** The maximal separator-free parts of a pattern. */
  function SplitPattern(pattern: string): seq<string>
    decreases |pattern|
  {
    if pattern == [] then []
    else if UnitLength(pattern) == 0 then SplitPattern(pattern[1..])
    else [pattern[..PatternRun(pattern)]] + SplitPattern(pattern[PatternRun(pattern)..])
  }

  lemma {:induction false} RunIsWellFormed(pattern: string)
    ensures WellFormed(pattern[..PatternRun(pattern)])
    decreases |pattern|
  {
    if pattern != [] && UnitLength(pattern) != 0 {
      var u := UnitLength(pattern);
      RunIsWellFormed(pattern[u..]);
      assert pattern[..PatternRun(pattern)][u..] == pattern[u..][..PatternRun(pattern[u..])];
    }
  }

  /** Splitting a pattern leaves every escape complete and no part empty. */
  lemma {:induction false} SplitPatternIsWellFormed(pattern: string)
    ensures forall i | 0 <= i < |SplitPattern(pattern)| ::
      SplitPattern(pattern)[i] != [] && WellFormed(SplitPattern(pattern)[i])
    decreases |pattern|
  {
    if pattern != [] {
      if UnitLength(pattern) == 0 {
        SplitPatternIsWellFormed(pattern[1..]);
      } else {
        RunIsWellFormed(pattern);
        SplitPatternIsWellFormed(pattern[PatternRun(pattern)..]);
      }
    }
  }

  // ---- What determines the parts of a pattern ----

  predicate IsEscapable(c: char) {
    c == '*' || c == '?' || c == '\\'
  }

  /** No separators: an escape character stands before a wildcard or escape character, and no slash occurs. */
  predicate AreUnits(part: string) {
    part == []
    || (if part[0] == '\\' then |part| >= 2 && IsEscapable(part[1]) && AreUnits(part[2..])
        else part[0] != '/' && AreUnits(part[1..]))
  }

  /** Slashes, and escape characters that escape nothing of what comes next. */
  ghost predicate Separates(gap: string, next: string) {
    forall i | 0 <= i < |gap| ::
      || gap[i] == '/'
      || (gap[i] == '\\' && (i + 1 == |gap| + |next| || !IsEscapable((gap + next)[i + 1])))
  }

  /** The pattern is its parts with separators around them, at least one between two parts. */
  ghost predicate ArePatternGaps(gaps: seq<string>, parts: seq<string>, pattern: string) {
    && |gaps| == |parts| + 1 && Interleaved(gaps, parts) == pattern
    && (forall i | 0 <= i < |parts| :: parts[i] != [] && AreUnits(parts[i]))
    && (forall i | 0 < i < |parts| :: gaps[i] != [])
    && (forall i | 0 <= i < |gaps| :: Separates(gaps[i], if i < |parts| then parts[i] else ""))
  }

  lemma {:induction false} RunIsUnits(pattern: string)
    ensures AreUnits(pattern[..PatternRun(pattern)])
    ensures PatternRun(pattern) < |pattern| ==> UnitLength(pattern[PatternRun(pattern)..]) == 0
    decreases |pattern|
  {
    if pattern != [] && UnitLength(pattern) != 0 {
      var u := UnitLength(pattern);
      RunIsUnits(pattern[u..]);
      assert pattern[..PatternRun(pattern)][u..] == pattern[u..][..PatternRun(pattern[u..])];
      assert pattern[u..][PatternRun(pattern[u..])..] == pattern[PatternRun(pattern)..];
    }
  }

  /** A character in front of the gaps separates if no unit begins there. */
  lemma MoreSeparates(c: char, gaps: seq<string>, parts: seq<string>, pattern: string)
    requires ArePatternGaps(gaps, parts, pattern) && UnitLength([c] + pattern) == 0
    ensures ArePatternGaps([[c] + gaps[0]] + gaps[1..], parts, [c] + pattern)
  {
    var more := [[c] + gaps[0]] + gaps[1..];
    var next := if parts == [] then "" else parts[0];
    MoreGap(c, gaps, parts);
    assert gaps[0] + next <= pattern by { FrontOf(gaps, parts); }
    assert Separates(gaps[0], next);
    assert ([c] + gaps[0]) + next == [c] + (gaps[0] + next);
    forall i | 0 <= i < |more[0]|
      ensures more[0][i] == '/'
           || (more[0][i] == '\\' && (i + 1 == |more[0]| + |next| || !IsEscapable((more[0] + next)[i + 1])))
    {
      if i > 0 {
        assert (more[0] + next)[i] == (gaps[0] + next)[i - 1];
        assert i < |gaps[0]| + |next| ==> (more[0] + next)[i + 1] == (gaps[0] + next)[i];
      } else if |gaps[0]| + |next| > 0 {
        assert ([c] + pattern)[1] == (gaps[0] + next)[0];
      }
    }
  }

  lemma NoParts()
    ensures ArePatternGaps([[]], [], [])
  {
  }

  lemma GapsAround(gaps: seq<string>, parts: seq<string>, pattern: string)
    requires ArePatternGaps(gaps, parts, pattern)
    ensures |gaps| == |parts| + 1
  {
  }

  lemma FrontOf(gaps: seq<string>, parts: seq<string>)
    requires |gaps| == |parts| + 1
    ensures gaps[0] + (if parts == [] then "" else parts[0]) <= Interleaved(gaps, parts)
  {
    if parts == [] {
      assert gaps[0] + "" == gaps[0];
    }
  }

  /** The parts of a pattern are maximal runs of its units, and nothing but separators is left out. */
  lemma {:induction false} SplitPatternMeaning(pattern: string) returns (gaps: seq<string>)
    ensures ArePatternGaps(gaps, SplitPattern(pattern), pattern)
    decreases |pattern|
  {
    hide UnitLength, PatternRun, AreUnits, ArePatternGaps;
    if pattern == [] {
      gaps := [[]];
      NoParts();
    } else if UnitLength(pattern) == 0 {
      var rest := SplitPatternMeaning(pattern[1..]);
      GapsAround(rest, SplitPattern(pattern[1..]), pattern[1..]);
      gaps := [[pattern[0]] + rest[0]] + rest[1..];
      assert pattern == [pattern[0]] + pattern[1..];
      MoreSeparates(pattern[0], rest, SplitPattern(pattern[1..]), pattern[1..]);
    } else {
      var n := PatternRun(pattern);
      var rest := SplitPatternMeaning(pattern[n..]);
      gaps := [[]] + rest;
      RunIsUnits(pattern);
      OneMorePart(pattern[..n], rest, SplitPattern(pattern[n..]), pattern[n..]);
      assert pattern == pattern[..n] + pattern[n..];
    }
  }

  /** A pattern without a gap in front begins with a unit. */
  lemma BeginsWithUnit(gaps: seq<string>, parts: seq<string>, pattern: string)
    requires ArePatternGaps(gaps, parts, pattern) && parts != [] && gaps[0] == []
    ensures pattern != [] && UnitLength(pattern) != 0
  {
    FrontOf(gaps, parts);
    assert gaps[0] + parts[0] == parts[0];
    assert AreUnits(parts[0]);
  }

  lemma OneMorePart(part: string, gaps: seq<string>, parts: seq<string>, rest: string)
    requires ArePatternGaps(gaps, parts, rest) && part != [] && AreUnits(part)
    requires rest != [] ==> UnitLength(rest) == 0
    ensures ArePatternGaps([[]] + gaps, [part] + parts, part + rest)
  {
    var more, all := [[]] + gaps, [part] + parts;
    assert more[1..] == gaps && all[1..] == parts;
    assert [] + part == part;
    if parts != [] && gaps[0] == [] {
      BeginsWithUnit(gaps, parts, rest);
    }
    forall i | 0 <= i < |more| ensures Separates(more[i], if i < |all| then all[i] else "") {
      if i > 0 {
        assert Separates(gaps[i - 1], if i - 1 < |parts| then parts[i - 1] else "");
      }
    }
  }

  /** Units before a separator or the end are a run. */
  lemma {:induction false} UnitsAreRun(units: string, after: string)
    requires AreUnits(units) && (after != [] ==> UnitLength(after) == 0)
    ensures PatternRun(units + after) == |units|
    decreases |units|
  {
    if units == [] {
      assert units + after == after;
    } else {
      var u := if units[0] == '\\' then 2 else 1;
      assert (units + after)[u..] == units[u..] + after;
      UnitsAreRun(units[u..], after);
    }
  }

  /** A pattern with a gap in front begins with a separator. */
  lemma BeginsWithGap(gaps: seq<string>, parts: seq<string>, pattern: string)
    requires ArePatternGaps(gaps, parts, pattern) && gaps[0] != []
    ensures pattern != [] && UnitLength(pattern) == 0
    ensures ArePatternGaps([gaps[0][1..]] + gaps[1..], parts, pattern[1..])
  {
    var next := if parts == [] then "" else parts[0];
    var c, rest := gaps[0][0], [gaps[0][1..]] + gaps[1..];
    FrontOf(gaps, parts);
    assert Separates(gaps[0], next);
    assert [c] + rest[0] == gaps[0] && rest[1..] == gaps[1..];
    assert gaps == [[c] + rest[0]] + rest[1..];
    MoreGap(c, rest, parts);
    assert pattern[1..] == Interleaved(rest, parts);
    assert gaps[0] + next == [c] + (rest[0] + next);
    LessSeparates(c, rest[0], next);
    forall i | 0 <= i < |rest| ensures Separates(rest[i], if i < |parts| then parts[i] else "") {
      if i > 0 {
        assert rest[i] == gaps[i];
      }
    }
  }

  lemma LessSeparates(c: char, gap: string, next: string)
    requires Separates([c] + gap, next)
    ensures Separates(gap, next)
  {
    var more := [c] + gap;
    forall i | 0 <= i < |gap|
      ensures gap[i] == '/' || (gap[i] == '\\' && (i + 1 == |gap| + |next| || !IsEscapable((gap + next)[i + 1])))
    {
      assert more[i + 1] == gap[i];
      assert i + 1 < |gap| + |next| ==> (more + next)[i + 2] == (gap + next)[i + 1];
    }
  }

  /** Without its first part a pattern is still its parts and gaps. */
  lemma WithoutFirst(gaps: seq<string>, parts: seq<string>, pattern: string)
    requires ArePatternGaps(gaps, parts, pattern) && parts != [] && gaps[0] == []
    ensures |parts[0]| <= |pattern| && pattern[..|parts[0]|] == parts[0]
    ensures ArePatternGaps(gaps[1..], parts[1..], pattern[|parts[0]|..])
  {
    var after := Interleaved(gaps[1..], parts[1..]);
    assert gaps[0] + parts[0] == parts[0];
    assert pattern[|parts[0]|..] == after;
    forall i | 0 <= i < |gaps[1..]|
      ensures Separates(gaps[1..][i], if i < |parts[1..]| then parts[1..][i] else "")
    {
      assert Separates(gaps[i + 1], if i + 1 < |parts| then parts[i + 1] else "");
    }
  }

  /** Whatever units a pattern is made of with such separators, they are the parts it is split into. */
  lemma {:induction false} SplitPatternIsUnique(gaps: seq<string>, parts: seq<string>, pattern: string)
    requires ArePatternGaps(gaps, parts, pattern)
    ensures SplitPattern(pattern) == parts
    decreases |pattern|
  {
    if gaps[0] != [] {
      BeginsWithGap(gaps, parts, pattern);
      SplitPatternIsUnique([gaps[0][1..]] + gaps[1..], parts, pattern[1..]);
    } else if parts != [] {
      BeginsWithUnit(gaps, parts, pattern);
      WithoutFirst(gaps, parts, pattern);
      var after := pattern[|parts[0]|..];
      if after != [] {
        GapBehind(gaps, parts, pattern);
      }
      UnitsAreRun(parts[0], after);
      assert pattern == parts[0] + after;
      SplitPatternIsUnique(gaps[1..], parts[1..], after);
    }
  }

  lemma GapBehind(gaps: seq<string>, parts: seq<string>, pattern: string)
    requires ArePatternGaps(gaps, parts, pattern) && parts != [] && gaps[0] == [] && |parts[0]| < |pattern|
    ensures UnitLength(pattern[|parts[0]|..]) == 0
  {
    WithoutFirst(gaps, parts, pattern);
    if gaps[1] != [] {
      BeginsWithGap(gaps[1..], parts[1..], pattern[|parts[0]|..]);
    }
  }

  /** The parts of a pattern whose first part has begun with `current`. */
  function SplitFrom(current: string, rest: string): seq<string> {
    if current == [] then SplitPattern(rest)
    else [current + rest[..PatternRun(rest)]] + SplitPattern(rest[PatternRun(rest)..])
  }

  lemma SplitFromSeparator(current: string, rest: string)
    requires rest != [] && UnitLength(rest) == 0
    ensures SplitFrom(current, rest) == (if current == [] then [] else [current]) + SplitPattern(rest[1..])
  {
    assert rest[..0] == [] && rest[0..] == rest;
    assert current + [] == current;
  }

  lemma Regroup(current: string, rest: string, u: nat, n: nat)
    requires u <= n <= |rest|
    ensures (current + rest[..u]) + rest[u..][..n - u] == current + rest[..n]
    ensures rest[u..][n - u..] == rest[n..]
  {
    assert rest[..n] == rest[..u] + rest[u..][..n - u];
  }

  lemma SplitFromUnit(current: string, rest: string)
    requires rest != [] && UnitLength(rest) != 0
    ensures SplitFrom(current, rest) == SplitFrom(current + rest[..UnitLength(rest)], rest[UnitLength(rest)..])
  {
    hide UnitLength, SplitPattern;
    var u, n := UnitLength(rest), PatternRun(rest);
    assert PatternRun(rest[u..]) == n - u;
    Regroup(current, rest, u, n);
    if current == [] {
      assert current + rest[..n] == rest[..n];
      FirstPart(rest);
    }
  }

  lemma FirstPart(rest: string)
    requires rest != [] && UnitLength(rest) != 0
    ensures SplitPattern(rest) == [rest[..PatternRun(rest)]] + SplitPattern(rest[PatternRun(rest)..])
  {
    hide UnitLength, PatternRun;
  }

  method SplitPatternPath(pattern: string) returns (segments: seq<string>)
    ensures segments == SplitPattern(pattern)
    ensures exists gaps :: ArePatternGaps(gaps, segments, pattern)
  {
    hide SplitPattern, PatternRun, SplitFrom, ArePatternGaps;
    segments := [];
    var current := "";
    var i := 0;
    assert pattern[0..] == pattern;
    SplitFromEmpty(pattern);
    while i < |pattern|
      invariant i <= |pattern|
      invariant SplitPattern(pattern) == segments + SplitFrom(current, pattern[i..])
    {
      var rune := pattern[i];
      var rest := pattern[i..];
      assert rest[1..] == pattern[i + 1..];
      SplitFromEmpty(rest[1..]);
      if rune == '\\' && i + 1 < |pattern|
         && (pattern[i + 1] == '*' || pattern[i + 1] == '?' || pattern[i + 1] == '\\')
      {
        SplitFromUnit(current, rest);
        assert rest[..2] == [rune, pattern[i + 1]];
        assert rest[2..] == pattern[i + 2..];
        current := current + [rune, pattern[i + 1]];
        i := i + 2;
      } else if rune == '/' || rune == '\\' {
        SplitFromSeparator(current, rest);
        if |current| > 0 {
          segments := segments + [current];
          current := "";
        }
        i := i + 1;
      } else {
        SplitFromUnit(current, rest);
        assert rest[..1] == [rune];
        current := current + [rune];
        i := i + 1;
      }
    }
    assert pattern[i..] == "";
    SplitFromEnd(current);
    if |current| > 0 {
      segments := segments + [current];
    }
    ghost var gaps := SplitPatternMeaning(pattern);
  }

  lemma SplitFromEmpty(rest: string)
    ensures SplitFrom("", rest) == SplitPattern(rest)
  {
  }

  lemma SplitFromEnd(current: string)
    ensures SplitFrom(current, "") == if current == [] then [] else [current]
  {
    assert current + [] == current;
  }

  const DOUBLE_STAR := "**"

  function IsDoubleStar(): string -> bool {
    (segment: string) => segment == DOUBLE_STAR
  }

  function SegmentMatches(): (string, string) -> bool {
    (segment: string, part: string) => Matches(segment, part)
  }

  ghost predicate PathRow(dp: array2<bool>, row: nat, patterns: seq<string>, path: seq<string>, upTo: nat)
    requires row < dp.Length0 && dp.Length1 == |path| + 1 && upTo <= |path| + 1
    reads dp
  {
    forall j | 0 <= j < upTo :: dp[row, j] == Back(IsDoubleStar(), SegmentMatches(), patterns, path[..j])
  }

  ghost predicate PathCell(patterns: seq<string>, segment: string, path: seq<string>, j: nat)
    requires j <= |path|
  {
    var star, one := IsDoubleStar(), SegmentMatches();
    if segment == DOUBLE_STAR then
      Back(star, one, patterns, path[..j]) || (j > 0 && Back(star, one, patterns + [segment], path[..j - 1]))
    else j > 0 && Matches(segment, path[j - 1]) && Back(star, one, patterns, path[..j - 1])
  }

  lemma PathCellMeaning(patterns: seq<string>, segment: string, path: seq<string>, j: nat)
    requires j <= |path|
    ensures Back(IsDoubleStar(), SegmentMatches(), patterns + [segment], path[..j])
         == PathCell(patterns, segment, path, j)
  {
    assert (patterns + [segment])[..|patterns|] == patterns;
    if j > 0 {
      assert path[..j][..j - 1] == path[..j - 1];
    }
  }

  /** Fills row `i + 1` of the table from row `i`. */
  method FillRow(dp: array2<bool>, i: nat, patterns: seq<string>, path: seq<string>) returns (ok: bool)
    requires i < |patterns| && dp.Length0 == |patterns| + 1 && dp.Length1 == |path| + 1
    requires PathRow(dp, i, patterns[..i], path, |path| + 1)
    requires !dp[i + 1, 0]
    modifies dp
    ensures ok <==> WellFormed(patterns[i])
    ensures ok ==> PathRow(dp, i + 1, patterns[..i + 1], path, |path| + 1)
    ensures forall k, j | i + 1 < k <= |patterns| && 0 <= j <= |path| :: dp[k, j] == old(dp[k, j])
  {
    hide Back;
    var segment := patterns[i];
    ghost var before := patterns[..i];
    assert patterns[..i + 1] == before + [segment];
    PathCellMeaning(before, segment, path, 0);
    var tokens: seq<Token> := [];
    if segment == DOUBLE_STAR {
      dp[i + 1, 0] := dp[i, 0];
    } else {
      var parsed := ParsePattern(segment);
      if parsed.Err? {
        return false;
      }
      tokens := parsed.value;
    }
    var j := 1;
    while j <= |path|
      invariant 1 <= j <= |path| + 1
      invariant PathRow(dp, i, before, path, |path| + 1)
      invariant PathRow(dp, i + 1, before + [segment], path, j)
      invariant forall k, j | i + 1 < k <= |patterns| && 0 <= j <= |path| :: dp[k, j] == old(dp[k, j])
    {
      PathCellMeaning(before, segment, path, j);
      if segment == DOUBLE_STAR {
        dp[i + 1, j] := dp[i, j] || dp[i + 1, j - 1];
      } else {
        var matched := MatchTokens(tokens, path[j - 1]);
        CollapsedTokensMeanPattern(segment, path[j - 1]);
        dp[i + 1, j] := dp[i, j - 1] && matched;
      }
      j := j + 1;
    }
    ok := true;
  }

  method MatchPathSegments(patterns: seq<string>, path: seq<string>) returns (r: Result<bool, WildcardError>)
    ensures r.Ok? <==> forall i | 0 <= i < |patterns| :: WellFormed(patterns[i])
    ensures r.Ok? ==> r.value == Front(IsDoubleStar(), SegmentMatches(), patterns, path)
  {
    var dp := new bool[|patterns| + 1, |path| + 1]((i, j) => i == 0 && j == 0);
    assert PathRow(dp, 0, [], path, |path| + 1);
    hide Back;
    assert patterns[..0] == [];
    for i := 0 to |patterns|
      invariant forall k | 0 <= k < i :: WellFormed(patterns[k])
      invariant PathRow(dp, i, patterns[..i], path, |path| + 1)
      invariant forall k, j | i < k <= |patterns| && 0 <= j <= |path| :: !dp[k, j]
    {
      var ok := FillRow(dp, i, patterns, path);
      if !ok {
        return Err(TrailingEscape);
      }
    }
    assert patterns[..|patterns|] == patterns && path[..|path|] == path;
    BackIsFront(IsDoubleStar(), SegmentMatches(), patterns, path);
    return Ok(dp[|patterns|, |path|]);
  }

  /** In a path, a segment `**` matches any number of parts, any other segment one part. */
  lemma SegmentMeaning(segment: string, parts: seq<string>)
    ensures Front(IsDoubleStar(), SegmentMatches(), [segment], parts)
       <==> segment == "**" || (|parts| == 1 && Matches(segment, parts[0]))
  {
    hide Front, Matches;
    FrontSingle(IsDoubleStar(), SegmentMatches(), segment, parts);
  }

  /** Path matching never fails, and `**` alone in a segment matches any number of segments. */
  method MatchWildcardPath(pattern: string, path: string) returns (r: Result<bool, WildcardError>)
    ensures r == Ok(Front(IsDoubleStar(), SegmentMatches(), SplitPattern(pattern), SplitPath(path)))
    ensures forall patternGaps, segments, gaps, parts |
      && ArePatternGaps(patternGaps, segments, pattern)
      && AreGaps(gaps, parts, path) && ArePartsOfPath(parts) ::
        r == Ok(Front(IsDoubleStar(), SegmentMatches(), segments, parts))
  {
    hide Front, ArePatternGaps, AreGaps, ArePartsOfPath, SplitPattern, SplitPath;
    var segments := SplitPatternPath(pattern);
    SplitPatternIsWellFormed(pattern);
    r := MatchPathSegments(segments, SplitPath(path));
    forall patternGaps, segments, gaps, parts |
      && ArePatternGaps(patternGaps, segments, pattern)
      && AreGaps(gaps, parts, path) && ArePartsOfPath(parts)
      ensures segments == SplitPattern(pattern) && parts == SplitPath(path)
    {
      SplitPatternIsUnique(patternGaps, segments, pattern);
      SplitPathIsUnique(gaps, parts, path);
    }
  }
}
