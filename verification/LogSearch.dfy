/** Literal search of the application log through SQL LIKE.

    A caller's text is a string, not a pattern, so the three characters that LIKE
    treats specially are escaped before a wildcard is put around the text.
    The main results say that the escaped pattern means exactly what the screen
    promises: "starts with" for the logger and "contains" for the message. */
module LogSearch {
  import opened Wrappers

  const ESCAPE: char := '\\'
  const ANY: char := '%'
  const ONE: char := '_'

  predicate IsMeta(c: char) {
    c == ESCAPE || c == ANY || c == ONE
  }

  // ---------------------------------------------------------------- escaping

  /** str.replace of a single character. */
  function Replace(s: string, c: char, with: string): string {
    if s == "" then "" else (if s[0] == c then with else [s[0]]) + Replace(s[1..], c, with)
  }

  /** Every metacharacter gets one escape in front of it; nothing else changes. */
  function Escaped(s: string): string {
    if s == "" then "" else (if IsMeta(s[0]) then [ESCAPE, s[0]] else [s[0]]) + Escaped(s[1..])
  }

  /** Drops each escape and keeps the character after it. */
  function Unescaped(s: string): string {
    if s == "" then ""
    else if s[0] == ESCAPE && |s| > 1 then [s[1]] + Unescaped(s[2..])
    else [s[0]] + Unescaped(s[1..])
  }

  /** What a pass over a set of characters leaves behind. */
  function EscapedAmong(s: string, done: set<char>): string {
    if s == "" then "" else (if s[0] in done then [ESCAPE, s[0]] else [s[0]]) + EscapedAmong(s[1..], done)
  }

  lemma {:induction false} ReplaceConcat(a: string, b: string, c: char, with: string)
    ensures Replace(a + b, c, with) == Replace(a, c, with) + Replace(b, c, with)
  {
    if a == "" {
      assert a + b == b;
    } else {
      assert (a + b)[1..] == a[1..] + b;
      ReplaceConcat(a[1..], b, c, with);
    }
  }

  lemma {:induction false} EscapedAmongNothing(s: string)
    ensures EscapedAmong(s, {}) == s
  {
    if s != "" {
      EscapedAmongNothing(s[1..]);
    }
  }

  /** One more pass is one more character escaped, as long as the escape character
      itself went first (or has not been introduced yet). */
  lemma {:induction false} OnePass(s: string, done: set<char>, c: char)
    requires c !in done
    requires done != {} ==> c != ESCAPE
    ensures Replace(EscapedAmong(s, done), c, [ESCAPE, c]) == EscapedAmong(s, done + {c})
  {
    if s != "" {
      var head := if s[0] in done then [ESCAPE, s[0]] else [s[0]];
      ReplaceConcat(head, EscapedAmong(s[1..], done), c, [ESCAPE, c]);
      OnePass(s[1..], done, c);
      if s[0] in done {
        assert head[1..] == [s[0]];
        assert Replace(head, c, [ESCAPE, c]) == head;
      }
    }
  }

  lemma {:induction false} AllThreeAreEscaped(s: string)
    ensures EscapedAmong(s, {ESCAPE, ANY, ONE}) == Escaped(s)
  {
    if s != "" {
      AllThreeAreEscaped(s[1..]);
    }
  }

  /** Three successive replacements, the escape character first. */
  method EscapedForLike(text: string) returns (value: string)
    ensures value == Escaped(text)
  {
    value := text;
    var characters := [ESCAPE, ANY, ONE];
    ghost var done: set<char> := {};
    EscapedAmongNothing(text);
    for i := 0 to |characters|
      invariant done == set k | 0 <= k < i :: characters[k]
      invariant value == EscapedAmong(text, done)
    {
      OnePass(text, done, characters[i]);
      value := Replace(value, characters[i], [ESCAPE, characters[i]]);
      done := done + {characters[i]};
    }
    assert characters[0] in done && characters[1] in done && characters[2] in done;
    assert done == {ESCAPE, ANY, ONE};
    AllThreeAreEscaped(text);
  }

  /** One replacement. */
  function Pass(s: string, c: char): string {
    Replace(s, c, [ESCAPE, c])
  }

  lemma PassesInOrder(s: string, b: char, c: char)
    requires IsMeta(b) && IsMeta(c) && b != ESCAPE && c != ESCAPE && b != c
    ensures Pass(Pass(Pass(s, ESCAPE), b), c) == Escaped(s)
  {
    EscapedAmongNothing(s);
    OnePass(s, {}, ESCAPE);
    assert {} + {ESCAPE} == {ESCAPE};
    OnePass(s, {ESCAPE}, b);
    OnePass(s, {ESCAPE} + {b}, c);
    assert {ESCAPE} + {b} + {c} == {ESCAPE, ANY, ONE};
    AllThreeAreEscaped(s);
  }

  lemma PassesOutOfOrder(a: char, b: char, c: char)
    requires IsMeta(a) && IsMeta(b) && IsMeta(c) && a != b && b != c && a != c && a != ESCAPE
    ensures Pass(Pass(Pass([a], a), b), c) == [ESCAPE, ESCAPE, a]
  {
    assert [a][1..] == "" && Replace("", a, [ESCAPE, a]) == "";
    assert Pass([a], a) == [ESCAPE, a] + "" == [ESCAPE, a];
    PassOverTwo(a, b);
    PassOverTwo(a, c);
    if b == ESCAPE {
      PassOverThree(a, c);
    }
  }

  lemma PassOverTwo(a: char, c: char)
    requires a != c
    ensures Pass([ESCAPE, a], c) == if c == ESCAPE then [ESCAPE, ESCAPE, a] else [ESCAPE, a]
  {
    assert [ESCAPE, a][1..] == [a] && [a][1..] == [];
    assert Replace([a], c, [ESCAPE, c]) == [a];
  }

  lemma PassOverThree(a: char, c: char)
    requires a != c && c != ESCAPE
    ensures Pass([ESCAPE, ESCAPE, a], c) == [ESCAPE, ESCAPE, a]
  {
    assert [ESCAPE, ESCAPE, a][1..] == [ESCAPE, a];
    PassOverTwo(a, c);
  }

  /** Of all orders of the three passes, those escape every text that take the backslash first. */
  lemma BackslashMustGoFirst(a: char, b: char, c: char)
    requires IsMeta(a) && IsMeta(b) && IsMeta(c) && a != b && b != c && a != c
    ensures (forall s :: Pass(Pass(Pass(s, a), b), c) == Escaped(s)) <==> a == ESCAPE
  {
    if a == ESCAPE {
      forall s ensures Pass(Pass(Pass(s, a), b), c) == Escaped(s) {
        PassesInOrder(s, b, c);
      }
    } else {
      PassesOutOfOrder(a, b, c);
      assert Escaped([a]) == [ESCAPE, a];
    }
  }

  lemma {:induction false} UnescapeInverts(s: string)
    ensures Unescaped(Escaped(s)) == s
  {
    if s != "" {
      UnescapeInverts(s[1..]);
      var rest := Escaped(s[1..]);
      if IsMeta(s[0]) {
        assert Escaped(s)[2..] == rest;
      } else {
        assert Escaped(s)[1..] == rest;
      }
    }
  }

  lemma EscapingIsInjective(a: string, b: string)
    requires Escaped(a) == Escaped(b)
    ensures a == b
  {
    UnescapeInverts(a);
    UnescapeInverts(b);
  }

  // ---------------------------------------------------------------- LIKE

  /** The like predicate of section 8.5 of SQL-92, with exact character equality.
      A pattern ending in a lone escape matches nothing. */
  predicate Like(text: string, pattern: string)
    decreases |pattern|, |text|
  {
    if pattern == "" then text == ""
    else if pattern[0] == ESCAPE then
      |pattern| > 1 && text != "" && text[0] == pattern[1] && Like(text[1..], pattern[2..])
    else if pattern[0] == ANY then
      Like(text, pattern[1..]) || (text != "" && Like(text[1..], pattern))
    else
      text != "" && (pattern[0] == ONE || text[0] == pattern[0]) && Like(text[1..], pattern[1..])
  }

  predicate StartsWith(text: string, prefix: string) {
    prefix <= text
  }

  ghost predicate Contains(text: string, part: string) {
    exists i :: 0 <= i <= |text| && part <= text[i..]
  }

  lemma {:induction false} LoneWildcardMatchesAll(text: string)
    ensures Like(text, [ANY])
  {
    assert [ANY][1..] == "";
    if text != "" {
      LoneWildcardMatchesAll(text[1..]);
    }
  }

  /** Unescaped, the three characters are patterns: they match what they are not. */
  lemma UnescapedTheyAreWildcards(c: char, text: string)
    ensures Like([c], "_") && Like(text, "%") && !Like("", "_") && !Like([c, c], "_")
    ensures Like("%", "\\%") && Like("_", "\\_") && Like("\\", "\\\\") && !Like(text, "\\")
    ensures Like([c], "\\%") <==> c == '%'
  {
    LoneWildcardMatchesAll(text);
    assert "_"[1..] == "" && [c][1..] == "" && [c, c][1..] == [c];
    assert "\\%"[2..] == "" && "\\_"[2..] == "" && "\\\\"[2..] == "";
  }

  lemma EscapedInFull()
    ensures Escaped("%") == "\\%" && Escaped("_") == "\\_" && Escaped("\\") == "\\\\" && Escaped("a") == "a"
  {
    assert "%"[1..] == "" && "_"[1..] == "" && "\\"[1..] == "" && "a"[1..] == "";
  }

  /** An escaped text matches itself and nothing else, whatever pattern follows it. */
  lemma {:induction false} EscapedMatchesItself(text: string, v: string, rest: string)
    ensures Like(text, Escaped(v) + rest) <==> v <= text && Like(text[|v|..], rest)
  {
    var pattern := Escaped(v) + rest;
    if v == "" {
      assert pattern == rest && text[0..] == text;
    } else {
      var width := if IsMeta(v[0]) then 2 else 1;
      assert pattern[width..] == Escaped(v[1..]) + rest;
      if text != "" {
        EscapedMatchesItself(text[1..], v[1..], rest);
        assert v <= text <==> text[0] == v[0] && v[1..] <= text[1..] by {
          if text[0] == v[0] && v[1..] <= text[1..] {
            assert v == [v[0]] + v[1..] && text == [text[0]] + text[1..];
          }
        }
        if v <= text {
          assert text[1..][|v| - 1..] == text[|v|..];
        }
      }
    }
  }

  /** The logger filter means "starts with". */
  lemma PrefixPatternMeansStartsWith(text: string, v: string)
    ensures Like(text, Escaped(v) + [ANY]) <==> StartsWith(text, v)
  {
    EscapedMatchesItself(text, v, [ANY]);
    if v <= text {
      LoneWildcardMatchesAll(text[|v|..]);
    }
  }

  /** The message filter means "contains". */
  lemma {:induction false} InfixPatternMeansContains(text: string, v: string)
    ensures Like(text, [ANY] + Escaped(v) + [ANY]) <==> Contains(text, v)
  {
    var pattern := [ANY] + Escaped(v) + [ANY];
    assert pattern[1..] == Escaped(v) + [ANY];
    PrefixPatternMeansStartsWith(text, v);
    assert text[0..] == text;
    if text != "" {
      InfixPatternMeansContains(text[1..], v);
      if Contains(text[1..], v) {
        var i :| 0 <= i <= |text[1..]| && v <= text[1..][i..];
        assert text[1..][i..] == text[i + 1..];
      }
      if Contains(text, v) && !(v <= text) {
        var i :| 0 <= i <= |text| && v <= text[i..];
        assert i > 0;
        assert text[i..] == text[1..][i - 1..];
      }
    }
  }

  // ---------------------------------------------------------------- the query

  /** One stored log row, the columns a search looks at. */
  datatype LogRow = LogRow(
    level: string,
    logger: string,
    message: string,
    requestId: Option<string>,
    userIdHash: Option<string>,
    createdAt: int)

  datatype Criteria = Criteria(
    level: Option<string>,
    loggerPrefix: Option<string>,
    messageContains: Option<string>,
    requestId: Option<string>,
    userIdHash: Option<string>,
    createdFrom: Option<int>,
    createdTo: Option<int>)

  datatype Condition =
    | LevelIs(value: string)
    | LoggerLike(pattern: string)
    | MessageLike(pattern: string)
    | RequestIdIs(value: string)
    | UserIdHashIs(value: string)
    | CreatedFrom(at: int)
    | CreatedTo(at: int)

  /** A WHERE clause keeps a row only when the condition is true; NULL = x is not. */
  predicate Keeps(row: LogRow, condition: Condition) {
    match condition
    case LevelIs(value) => row.level == value
    case LoggerLike(pattern) => Like(row.logger, pattern)
    case MessageLike(pattern) => Like(row.message, pattern)
    case RequestIdIs(value) => row.requestId == Some(value)
    case UserIdHashIs(value) => row.userIdHash == Some(value)
    case CreatedFrom(at) => row.createdAt >= at
    case CreatedTo(at) => row.createdAt <= at
  }

  predicate KeepsAll(row: LogRow, conditions: seq<Condition>) {
    forall i :: 0 <= i < |conditions| ==> Keeps(row, conditions[i])
  }

  /** Python truthiness of an optional text: missing and empty are both "not given". */
  predicate Given(text: Option<string>) {
    text.Some? && text.value != ""
  }

  /** The criteria for level, logger and message. */
  ghost predicate TextsWanted(row: LogRow, c: Criteria) {
    && (c.level.None? || c.level.value == "" || row.level == c.level.value)
    && (c.loggerPrefix.None? || c.loggerPrefix.value == "" || StartsWith(row.logger, c.loggerPrefix.value))
    && (c.messageContains.None? || c.messageContains.value == "" || Contains(row.message, c.messageContains.value))
  }

  /** What the search screen promises, without patterns. */
  ghost predicate Wanted(row: LogRow, c: Criteria) {
    && TextsWanted(row, c)
    && (c.requestId.None? || c.requestId.value == "" || row.requestId == c.requestId)
    && (c.userIdHash.None? || c.userIdHash.value == "" || row.userIdHash == c.userIdHash)
    && (c.createdFrom.Some? ==> c.createdFrom.value <= row.createdAt)
    && (c.createdTo.Some? ==> row.createdAt <= c.createdTo.value)
  }

  lemma KeepsOneMore(row: LogRow, conditions: seq<Condition>, next: Condition)
    ensures KeepsAll(row, conditions + [next]) <==> KeepsAll(row, conditions) && Keeps(row, next)
  {
    var longer := conditions + [next];
    if KeepsAll(row, longer) {
      forall i | 0 <= i < |conditions| ensures Keeps(row, conditions[i]) {
        assert longer[i] == conditions[i];
      }
      assert longer[|conditions|] == next;
    }
  }

  lemma KeepsOneMoreForAll(conditions: seq<Condition>, next: Condition)
    ensures forall row :: KeepsAll(row, conditions + [next]) <==> KeepsAll(row, conditions) && Keeps(row, next)
  {
    forall row ensures KeepsAll(row, conditions + [next]) <==> KeepsAll(row, conditions) && Keeps(row, next) {
      KeepsOneMore(row, conditions, next);
    }
  }

  lemma LoggerPatternForAll(v: string)
    ensures forall row: LogRow :: Keeps(row, LoggerLike(Escaped(v) + [ANY])) <==> StartsWith(row.logger, v)
  {
    forall row: LogRow
      ensures Keeps(row, LoggerLike(Escaped(v) + [ANY])) <==> StartsWith(row.logger, v)
    {
      PrefixPatternMeansStartsWith(row.logger, v);
    }
  }

  lemma MessagePatternForAll(v: string)
    ensures forall row: LogRow ::
      Keeps(row, MessageLike([ANY] + Escaped(v) + [ANY])) <==> Contains(row.message, v)
  {
    forall row: LogRow
      ensures Keeps(row, MessageLike([ANY] + Escaped(v) + [ANY])) <==> Contains(row.message, v)
    {
      InfixPatternMeansContains(row.message, v);
    }
  }

  method TextConditions(c: Criteria) returns (conditions: seq<Condition>)
    ensures forall row :: KeepsAll(row, conditions) <==> TextsWanted(row, c)
  {
    conditions := [];
    if Given(c.level) {
      KeepsOneMoreForAll(conditions, LevelIs(c.level.value));
      conditions := conditions + [LevelIs(c.level.value)];
    }
    if Given(c.loggerPrefix) {
      var escaped := EscapedForLike(c.loggerPrefix.value);
      LoggerPatternForAll(c.loggerPrefix.value);
      KeepsOneMoreForAll(conditions, LoggerLike(escaped + [ANY]));
      conditions := conditions + [LoggerLike(escaped + [ANY])];
    }
    if Given(c.messageContains) {
      var escaped := EscapedForLike(c.messageContains.value);
      MessagePatternForAll(c.messageContains.value);
      KeepsOneMoreForAll(conditions, MessageLike([ANY] + escaped + [ANY]));
      conditions := conditions + [MessageLike([ANY] + escaped + [ANY])];
    }
  }

  /** Appends one condition for each criterion that is given. */
  method Conditions(c: Criteria) returns (conditions: seq<Condition>)
    ensures forall row :: KeepsAll(row, conditions) <==> Wanted(row, c)
  {
    conditions := TextConditions(c);
    if Given(c.requestId) {
      KeepsOneMoreForAll(conditions, RequestIdIs(c.requestId.value));
      conditions := conditions + [RequestIdIs(c.requestId.value)];
    }
    if Given(c.userIdHash) {
      KeepsOneMoreForAll(conditions, UserIdHashIs(c.userIdHash.value));
      conditions := conditions + [UserIdHashIs(c.userIdHash.value)];
    }
    if c.createdFrom.Some? {
      KeepsOneMoreForAll(conditions, CreatedFrom(c.createdFrom.value));
      conditions := conditions + [CreatedFrom(c.createdFrom.value)];
    }
    if c.createdTo.Some? {
      KeepsOneMoreForAll(conditions, CreatedTo(c.createdTo.value));
      conditions := conditions + [CreatedTo(c.createdTo.value)];
    }
  }
}
