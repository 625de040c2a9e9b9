/** The CockroachDB introspector's quoting, its identifier reader and its two parenthesis scanners. */
module Scanner {
  import opened Wrappers
  import opened Texts

  // ---- quoting ----

  function Doubled(s: string): string
  {
    if s == "" then "" else (if s[0] == '"' then ['"', '"'] else [s[0]]) + Doubled(s[1..])
  }

  function QuoteIdentifier(identifier: string): string {
    ['"'] + Doubled(identifier) + ['"']
  }

  /** replaceAll of two quotes by one, left to right. */
  function Undoubled(s: string): string
  {
    if s == "" then ""
    else if |s| > 1 && s[0] == '"' && s[1] == '"' then ['"'] + Undoubled(s[2..])
    else [s[0]] + Undoubled(s[1..])
  }

  function UnquoteIdentifier(value: string): string {
    if value != "" && value[0] == '"' && value[|value| - 1] == '"' then
      if |value| == 1 then "" else Undoubled(value[1..|value| - 1])
    else value
  }

  // ---- reading an identifier ----

  datatype Identifier = Identifier(name: string, end: nat)

  function Prepend(name: string, r: Option<Identifier>): Option<Identifier> {
    match r case None => None case Some(rest) => Some(Identifier(name + rest.name, rest.end))
  }

  /** What follows an opening quote, up to the quote that closes it. */
  function Quoted(value: string, index: nat): Option<Identifier>
    decreases |value| - index
  {
    if index >= |value| then None
    else if value[index] != '"' then Prepend([value[index]], Quoted(value, index + 1))
    else if index + 1 < |value| && value[index + 1] == '"' then Prepend(['"'], Quoted(value, index + 2))
    else Some(Identifier("", index + 1))
  }

  predicate IsLetter(c: char) {
    'A' <= c <= 'Z' || 'a' <= c <= 'z' || c == '_'
  }

  predicate IsWordCharacter(c: char) {
    IsLetter(c) || '0' <= c <= '9' || c == '$'
  }

  function WordEnd(value: string, index: nat): (end: nat)
    requires index <= |value|
    ensures index <= end <= |value|
    ensures forall k | index <= k < end :: IsWordCharacter(value[k])
    ensures end < |value| ==> !IsWordCharacter(value[end])
    decreases |value| - index
  {
    if index < |value| && IsWordCharacter(value[index]) then WordEnd(value, index + 1) else index
  }

  function IdentifierAt(value: string, start: nat): Option<Identifier> {
    if start < |value| && value[start] == '"' then Quoted(value, start + 1)
    else if start < |value| && IsLetter(value[start]) then
      var end := WordEnd(value, start);
      Some(Identifier(value[start..end], end))
    else None
  }

  lemma PrependTwice(a: string, b: string, r: Option<Identifier>)
    ensures Prepend(a, Prepend(b, r)) == Prepend(a + b, r)
  {
    if r.Some? {
      assert a + (b + r.value.name) == a + b + r.value.name;
    }
  }

  lemma PrependNothing(r: Option<Identifier>)
    ensures Prepend("", r) == r
  {
    if r.Some? {
      assert "" + r.value.name == r.value.name;
    }
  }

  method ReadIdentifier(value: string, start: nat) returns (r: Option<Identifier>)
    ensures r == IdentifierAt(value, start)
  {
    if start < |value| && value[start] == '"' {
      var index := start + 1;
      var name := "";
      PrependNothing(Quoted(value, index));
      while index < |value|
        invariant index <= |value| && Quoted(value, start + 1) == Prepend(name, Quoted(value, index))
        decreases |value| - index
      {
        var character := value[index];
        if character == '"' {
          if index + 1 < |value| && value[index + 1] == '"' {
            PrependTwice(name, ['"'], Quoted(value, index + 2));
            name := name + ['"'];
            index := index + 2;
            continue;
          }
          assert name + "" == name;
          return Some(Identifier(name, index + 1));
        }
        PrependTwice(name, [character], Quoted(value, index + 1));
        name := name + [character];
        index := index + 1;
      }
      return None;
    }
    if start >= |value| || !IsLetter(value[start]) {
      return None;
    }
    var end := WordEnd(value, start);
    return Some(Identifier(value[start..end], end));
  }

  // ---- quoting and reading are inverse ----

  lemma QuotedStep(before: string, c: char, rest: string)
    ensures var head := if c == '"' then ['"', '"'] else [c];
            Quoted(before + head + rest, |before|) == Prepend([c], Quoted(before + head + rest, |before + head|))
  {
    var head := if c == '"' then ['"', '"'] else [c];
    var value := before + head + rest;
    assert value[|before|] == head[0];
    if c == '"' {
      assert value[|before| + 1] == '"';
    }
  }

  lemma Regrouped(before: string, head: string, tail: string, after: string)
    ensures before + (head + tail) + ['"'] + after == before + head + (tail + ['"'] + after)
    ensures before + head + (tail + ['"'] + after) == (before + head) + tail + ['"'] + after
  {
  }

  /** The reader's step over one character of a quoted identifier. */
  lemma OneCharacter(s: string, before: string, after: string)
    requires s != ""
    ensures var value := before + Doubled(s) + ['"'] + after;
            var head := if s[0] == '"' then ['"', '"'] else [s[0]];
            && value == (before + head) + Doubled(s[1..]) + ['"'] + after
            && |Doubled(s)| == |head| + |Doubled(s[1..])|
            && Quoted(value, |before|) == Prepend([s[0]], Quoted(value, |before + head|))
  {
    var head := if s[0] == '"' then ['"', '"'] else [s[0]];
    assert Doubled(s) == head + Doubled(s[1..]);
    hide Doubled, Quoted;
    Regrouped(before, head, Doubled(s[1..]), after);
    QuotedStep(before, s[0], Doubled(s[1..]) + ['"'] + after);
  }

  lemma {:induction false} QuotedReadsBack(s: string, before: string, after: string)
    requires after == "" || after[0] != '"'
    ensures Quoted(before + Doubled(s) + ['"'] + after, |before|)
            == Some(Identifier(s, |before| + |Doubled(s)| + 1))
    decreases |s|
  {
    var value := before + Doubled(s) + ['"'] + after;
    if s == "" {
      assert value[|before|] == '"';
      assert after != "" ==> value[|before| + 1] == after[0];
    } else {
      var head := if s[0] == '"' then ['"', '"'] else [s[0]];
      QuotedReadsBack(s[1..], before + head, after);
      OneCharacter(s, before, after);
      assert [s[0]] + s[1..] == s;
    }
  }

  lemma {:induction false} QuotedEndsLater(value: string, index: nat)
    ensures Quoted(value, index).Some? ==> Quoted(value, index).value.end > index
    decreases |value| - index
  {
    if index < |value| {
      QuotedEndsLater(value, index + 1);
      QuotedEndsLater(value, index + 2);
    }
  }

  lemma {:induction false} QuotedMissesTheEnd(s: string, before: string, after: string)
    requires after != "" && after[0] == '"'
    ensures var r := Quoted(before + Doubled(s) + ['"'] + after, |before|);
            r.Some? ==> r.value.end > |before| + |Doubled(s)| + 1
    decreases |s|
  {
    var value := before + Doubled(s) + ['"'] + after;
    if s == "" {
      assert value[|before|] == '"' && value[|before| + 1] == after[0];
      QuotedEndsLater(value, |before| + 2);
    } else {
      var head := if s[0] == '"' then ['"', '"'] else [s[0]];
      QuotedMissesTheEnd(s[1..], before + head, after);
      OneCharacter(s, before, after);
    }
  }

  /**
   * Reading back what was quoted: anywhere in a text, for every identifier and every suffix, the
   * reader returns the identifier and the exact end of its quoted form if and only if the suffix
   * does not go on with another quote.
   */
  lemma IdentifierReadsBack(before: string, identifier: string, after: string)
    ensures IdentifierAt(before + QuoteIdentifier(identifier) + after, |before|)
              == Some(Identifier(identifier, |before| + |QuoteIdentifier(identifier)|))
            <==> after == "" || after[0] != '"'
  {
    var value := before + QuoteIdentifier(identifier) + after;
    assert value == (before + ['"']) + Doubled(identifier) + ['"'] + after;
    assert value[|before|] == '"' && |before + ['"']| == |before| + 1;
    if after == "" || after[0] != '"' {
      QuotedReadsBack(identifier, before + ['"'], after);
    } else {
      QuotedMissesTheEnd(identifier, before + ['"'], after);
    }
  }

  lemma {:induction false} QuotedIsDoubled(value: string, index: nat)
    requires index <= |value| && Quoted(value, index).Some?
    ensures var r := Quoted(value, index).value;
            index < r.end <= |value| && value[index..r.end] == Doubled(r.name) + ['"']
    decreases |value| - index
  {
    if index < |value| {
      var end := Quoted(value, index).value.end;
      if value[index] != '"' {
        QuotedIsDoubled(value, index + 1);
        assert value[index..end] == [value[index]] + value[index + 1..end];
      } else if index + 1 < |value| && value[index + 1] == '"' {
        QuotedIsDoubled(value, index + 2);
        assert value[index..end] == ['"', '"'] + value[index + 2..end];
      } else {
        assert value[index..end] == ['"'];
      }
    }
  }

  /** Whatever is read from a quote on is the quoted form of the name returned. */
  lemma ReadIsQuoted(value: string, start: nat)
    requires start < |value| && value[start] == '"' && IdentifierAt(value, start).Some?
    ensures var r := IdentifierAt(value, start).value;
            start < r.end <= |value| && value[start..r.end] == QuoteIdentifier(r.name)
  {
    QuotedIsDoubled(value, start + 1);
    var r := IdentifierAt(value, start).value;
    assert value[start..r.end] == ['"'] + value[start + 1..r.end];
  }

  lemma {:induction false} UndoubledInverts(s: string)
    ensures Undoubled(Doubled(s)) == s
  {
    if s != "" {
      UndoubledInverts(s[1..]);
      var rest := Doubled(s[1..]);
      if s[0] == '"' {
        assert (['"', '"'] + rest)[2..] == rest;
      } else {
        assert ([s[0]] + rest)[1..] == rest;
      }
      assert [s[0]] + s[1..] == s;
    }
  }

  /** The unquoter agrees with the reader on every text that is one quoted identifier. */
  lemma UnquoteAgrees(value: string)
    requires value != "" && value[0] == '"' && IdentifierAt(value, 0).Some?
             && IdentifierAt(value, 0).value.end == |value|
    ensures UnquoteIdentifier(value) == IdentifierAt(value, 0).value.name
  {
    ReadIsQuoted(value, 0);
    var name := IdentifierAt(value, 0).value.name;
    assert value[0..|value|] == value;
    assert value[1..|value| - 1] == Doubled(name);
    UndoubledInverts(name);
  }

  ghost predicate InWord(c: char) {
    'A' <= c <= 'Z' || 'a' <= c <= 'z' || '0' <= c <= '9' || c == '_' || c == '$'
  }

  /** Letters, digits, underscores and dollar signs, the first one no digit or dollar sign. */
  ghost predicate IsWord(s: string) {
    && s != "" && !('0' <= s[0] <= '9') && s[0] != '$'
    && forall i | 0 <= i < |s| :: InWord(s[i])
  }

  /** Anywhere in a text a bare word is read with its exact end if and only if it does not go on. */
  lemma WordReadsBack(before: string, word: string, after: string)
    requires IsWord(word)
    ensures IdentifierAt(before + word + after, |before|) == Some(Identifier(word, |before| + |word|))
            <==> after == "" || !InWord(after[0])
  {
    var value := before + word + after;
    var end := |before| + |word|;
    assert value[|before|] == word[0];
    assert forall k | |before| <= k < end :: value[k] == word[k - |before|];
    assert after != "" ==> value[end] == after[0];
    assert value[|before|..end] == word;
    assert forall k | |before| <= k < end :: InWord(value[k]) && IsWordCharacter(value[k]);
  }

  /** What is read where no quote stands is a word that does not go on, and nothing only where none begins. */
  lemma ReadIsWord(value: string, start: nat)
    requires start < |value| ==> value[start] != '"'
    ensures match IdentifierAt(value, start)
            case None => start >= |value| || !IsWord([value[start]])
            case Some(r) =>
              && start < r.end <= |value| && r.name == value[start..r.end] && IsWord(r.name)
              && (r.end < |value| ==> !InWord(value[r.end]))
  {
    if start < |value| {
      assert IsWord([value[start]]) <==> IsLetter(value[start]) by {
        assert [value[start]][0] == value[start];
      }
    }
  }

  /** Unquoting undoes quoting, and leaves alone what does not both begin and end with a quote. */
  lemma UnquoteInverts(value: string)
    ensures UnquoteIdentifier(QuoteIdentifier(value)) == value
    ensures value == "" || value[0] != '"' || value[|value| - 1] != '"' ==> UnquoteIdentifier(value) == value
  {
    var quoted := QuoteIdentifier(value);
    assert |quoted| == |Doubled(value)| + 2 && quoted[1..|quoted| - 1] == Doubled(value);
    UndoubledInverts(value);
  }

  /** A name with a quote in it. */
  lemma QuotedName()
    ensures QuoteIdentifier("a\"b") == "\"a\"\"b\""
  {
    assert Doubled("b") == "b" && Doubled("\"b") == "\"\"b" && Doubled("a\"b") == "a\"\"b";
  }

  // ---- quotes and nesting ----

  predicate IsQuote(c: char) { c == '\'' || c == '"' }

  /** The quote a position lies inside of, scanning from `open`. */
  function QuoteAt(value: string, open: nat, k: nat): Option<char>
    requires open <= k <= |value|
    decreases k
  {
    if k == open then None
    else
      var c := value[k - 1];
      match QuoteAt(value, open, k - 1)
      case Some(q) => if c == q then None else Some(q)
      case None => if c == '\'' || c == '"' then Some(c) else None
  }

  /** How many parentheses outside quotes are open before a position. */
  function Level(value: string, open: nat, k: nat): int
    requires open <= k <= |value|
    decreases k
  {
    if k == open then 0
    else
      Level(value, open, k - 1)
      + (if QuoteAt(value, open, k - 1).Some? then 0
         else if value[k - 1] == '(' then 1
         else if value[k - 1] == ')' then -1
         else 0)
  }

  /** A closing parenthesis outside quotes that brings the level back to zero. */
  predicate ClosesAt(value: string, open: nat, k: nat)
    requires open <= k < |value|
  {
    QuoteAt(value, open, k).None? && value[k] == ')' && Level(value, open, k + 1) == 0
  }

  /** The first such parenthesis from `open` on. */
  ghost predicate Matches(value: string, open: nat, k: nat)
    requires open <= k < |value|
  {
    ClosesAt(value, open, k) && forall j | open <= j < k :: !ClosesAt(value, open, j)
  }

  lemma {:induction false} QuotesAreQuotes(value: string, open: nat, k: nat)
    requires open <= k <= |value|
    ensures QuoteAt(value, open, k).Some? ==> IsQuote(QuoteAt(value, open, k).value)
    decreases k
  {
    if k > open {
      QuotesAreQuotes(value, open, k - 1);
    }
  }

  method MatchingParenthesis(value: string, open: nat) returns (r: Option<nat>)
    ensures r.Some? ==> open <= r.value < |value| && Matches(value, open, r.value)
    ensures r.None? ==> forall k | open <= k < |value| :: !ClosesAt(value, open, k)
  {
    var depth := 0;
    var quoteCharacter: Option<char> := None;
    var index := open;
    while index < |value|
      invariant open <= |value| ==> index <= |value|
      invariant open <= |value| ==> quoteCharacter == QuoteAt(value, open, index) && depth == Level(value, open, index)
      invariant forall k | open <= k < index && k < |value| :: !ClosesAt(value, open, k)
    {
      var character := value[index];
      QuotesAreQuotes(value, open, index);
      if quoteCharacter.Some? {
        if character == quoteCharacter.value {
          if index + 1 < |value| && value[index + 1] == quoteCharacter.value {
            index := index + 1;
          } else {
            quoteCharacter := None;
          }
        }
        index := index + 1;
        continue;
      }
      if IsQuote(character) {
        quoteCharacter := Some(character);
        index := index + 1;
        continue;
      }
      if character == '(' {
        depth := depth + 1;
      }
      if character == ')' {
        depth := depth - 1;
        if depth == 0 {
          return Some(index);
        }
      }
      index := index + 1;
    }
    return None;
  }

  lemma {:induction false} LevelStaysPositive(value: string, k: nat)
    requires value != "" && value[0] == '(' && 0 < k <= |value|
    requires forall j | 0 <= j < k :: !ClosesAt(value, 0, j)
    ensures Level(value, 0, k) >= 1
  {
    if k > 1 {
      LevelStaysPositive(value, k - 1);
      assert !ClosesAt(value, 0, k - 1);
    } else {
      assert Level(value, 0, 0) == 0;
    }
  }

  /** Surrounded by one matching pair. */
  ghost predicate Wrapped(value: string) {
    value != "" && value[0] == '(' && Matches(value, 0, |value| - 1)
  }

  /** From an opening parenthesis the level first comes back to zero at a closing one. */
  lemma ZeroMeansClosed(value: string, k: nat)
    requires value != "" && value[0] == '(' && 0 < k < |value| && Level(value, 0, k + 1) == 0
    requires forall j | 0 <= j < k :: !ClosesAt(value, 0, j)
    ensures ClosesAt(value, 0, k)
  {
    LevelStaysPositive(value, k);
  }

  lemma OneAfterOpening(value: string)
    requires value != "" && value[0] == '('
    ensures Level(value, 0, 1) == 1
  {
    assert Level(value, 0, 0) == 0;
  }

  lemma LastDecides(value: string)
    requires value != "" && value[0] == '('
    requires forall j | 0 <= j < |value| - 1 :: !ClosesAt(value, 0, j)
    ensures Level(value, 0, |value|) == 0 <==> Wrapped(value)
  {
    OneAfterOpening(value);
    if Level(value, 0, |value|) == 0 {
      ZeroMeansClosed(value, |value| - 1);
    }
  }

  /**
   * The second scanner agrees with the first: it holds exactly when the opening parenthesis is matched by the last
   * character.
   */
  method BalancedOuterParentheses(value: string) returns (balanced: bool)
    ensures balanced <==> Wrapped(value)
  {
    if value == "" || value[0] != '(' || value[|value| - 1] != ')' {
      return false;
    }
    var depth := 0;
    var quoteCharacter: Option<char> := None;
    var index := 0;
    while index < |value|
      invariant index <= |value|
      invariant quoteCharacter == QuoteAt(value, 0, index) && depth == Level(value, 0, index)
      invariant forall k | 0 <= k < index && k < |value| - 1 :: !ClosesAt(value, 0, k)
    {
      var character := value[index];
      QuotesAreQuotes(value, 0, index);
      if quoteCharacter.Some? {
        if character == quoteCharacter.value {
          if index + 1 < |value| && value[index + 1] == quoteCharacter.value {
            index := index + 1;
          } else {
            quoteCharacter := None;
          }
        }
        index := index + 1;
        continue;
      }
      if IsQuote(character) {
        quoteCharacter := Some(character);
        index := index + 1;
        continue;
      }
      if character == '(' {
        depth := depth + 1;
      }
      if character == ')' {
        depth := depth - 1;
      }
      if depth == 0 && index < |value| - 1 {
        ZeroMeansClosed(value, index);
        return false;
      }
      index := index + 1;
    }
    LastDecides(value);
    return depth == 0;
  }

  /** For text that opens with a parenthesis the scanners agree: balanced means matched at the last index. */
  method ScannersAgree(value: string) returns (balanced: bool, matching: Option<nat>)
    requires value != "" && value[0] == '('
    ensures balanced <==> Wrapped(value)
    ensures balanced <==> matching == Some(|value| - 1)
  {
    balanced := BalancedOuterParentheses(value);
    matching := MatchingParenthesis(value, 0);
    if matching.Some? && balanced {
      var k, n := matching.value, |value| - 1;
      assert ClosesAt(value, 0, k) && ClosesAt(value, 0, n);
    }
  }

  // ---- stripping ----

  function TrimStart(s: string): string
  {
    if s != "" && IsSpace(s[0]) then TrimStart(s[1..]) else s
  }

  function TrimEnd(s: string): string
  {
    if s != "" && IsSpace(s[|s| - 1]) then TrimEnd(s[..|s| - 1]) else s
  }

  function Trim(s: string): string {
    TrimEnd(TrimStart(s))
  }

  predicate Trimmed(s: string) {
    s == "" || (!IsSpace(s[0]) && !IsSpace(s[|s| - 1]))
  }

  lemma {:induction false} TrimStartShape(s: string)
    ensures |TrimStart(s)| <= |s| && TrimStart(s) == s[|s| - |TrimStart(s)|..]
    ensures TrimStart(s) == "" || !IsSpace(TrimStart(s)[0])
    ensures Blank(s[..|s| - |TrimStart(s)|])
  {
    if s != "" && IsSpace(s[0]) {
      TrimStartShape(s[1..]);
      var k := |s| - |TrimStart(s)|;
      assert s[..k] == [s[0]] + s[1..][..k - 1];
    }
  }

  lemma {:induction false} TrimEndShape(s: string)
    ensures |TrimEnd(s)| <= |s| && TrimEnd(s) == s[..|TrimEnd(s)|]
    ensures TrimEnd(s) == "" || !IsSpace(TrimEnd(s)[|TrimEnd(s)| - 1])
    ensures Blank(s[|TrimEnd(s)|..])
  {
    if s != "" && IsSpace(s[|s| - 1]) {
      var k := |s| - 1;
      TrimEndShape(s[..k]);
      assert s[|TrimEnd(s)|..] == s[..k][|TrimEnd(s)|..] + [s[k]];
    }
  }

  lemma {:induction false} TrimShape(s: string)
    ensures |Trim(s)| <= |s| && Trimmed(Trim(s))
    ensures Trimmed(s) ==> Trim(s) == s
  {
    TrimStartShape(s);
    TrimEndShape(TrimStart(s));
  }

  lemma WrappedIsLong(t: string)
    requires Wrapped(t)
    ensures |t| >= 2 && t[0] == '(' && t[|t| - 1] == ')'
  {
  }

  /** White space and matching outer pairs taken away until none is left. */
  ghost function Stripped(s: string): string
    decreases |s|
  {
    TrimShape(s);
    var t := Trim(s);
    if Wrapped(t) then
      WrappedIsLong(t);
      Stripped(t[1..|t| - 1])
    else t
  }

  /** Terminates: every turn takes two characters away. */
  method StripOuterParentheses(value: string) returns (current: string)
    ensures current == Stripped(value)
  {
    TrimShape(value);
    current := Trim(value);
    var balanced := BalancedOuterParentheses(current);
    while balanced
      invariant balanced <==> Wrapped(current)
      invariant Trimmed(current) && Stripped(value) == Stripped(current)
      decreases |current|
    {
      WrappedIsLong(current);
      TrimShape(current);
      ghost var inner := current[1..|current| - 1];
      TrimShape(inner);
      TrimShape(Trim(inner));
      current := Trim(current[1..|current| - 1]);
      balanced := BalancedOuterParentheses(current);
    }
    TrimShape(current);
  }

  lemma {:induction false} StrippedShape(s: string)
    ensures Trimmed(Stripped(s)) && !Wrapped(Stripped(s))
    decreases |s|
  {
    TrimShape(s);
    var t := Trim(s);
    if Wrapped(t) {
      WrappedIsLong(t);
      StrippedShape(t[1..|t| - 1]);
    }
  }

  /** Stripping twice is stripping once. */
  lemma StripIsIdempotent(s: string)
    ensures Stripped(Stripped(s)) == Stripped(s)
  {
    StrippedShape(s);
    TrimShape(Stripped(s));
  }

  ghost predicate OnlySpaceOr(c: char, s: string) {
    forall x | x in s :: IsSpace(x) || x == c
  }

  lemma SpacesAreNoParentheses()
    ensures !IsSpace('(') && !IsSpace(')')
  {
  }

  lemma TrimTakesBlanks(s: string) returns (front: string, back: string)
    ensures s == front + Trim(s) + back && Blank(front) && Blank(back)
  {
    TrimStartShape(s);
    TrimEndShape(TrimStart(s));
    front, back := s[..|s| - |TrimStart(s)|], TrimStart(s)[|Trim(s)|..];
  }

  lemma OneLayer(front: string, t: string, back: string, before: string, core: string, after: string)
    requires |t| >= 2 && t[0] == '(' && t[|t| - 1] == ')' && t[1..|t| - 1] == before + core + after
    requires Blank(front) && Blank(back)
    ensures front + t + back == (front + ['('] + before) + core + (after + [')'] + back)
    ensures multiset(front + ['('] + before)['('] == 1 + multiset(before)['(']
    ensures multiset(after + [')'] + back)[')'] == 1 + multiset(after)[')']
  {
    hide IsSpace;
    SpacesAreNoParentheses();
    assert t == ['('] + (before + core + after) + [')'];
  }

  /**
   * Stripping takes nothing away but white space and equally many opening parentheses in front as closing ones
   * behind.
   */
  lemma {:induction false} StripKeepsTheCore(s: string) returns (before: string, after: string)
    ensures s == before + Stripped(s) + after
    ensures OnlySpaceOr('(', before) && OnlySpaceOr(')', after)
    ensures multiset(before)['('] == multiset(after)[')']
    decreases |s|
  {
    hide Trim, IsSpace, Wrapped;
    TrimShape(s);
    SpacesAreNoParentheses();
    var t := Trim(s);
    var front, back := TrimTakesBlanks(s);
    if Wrapped(t) {
      WrappedIsLong(t);
      before, after := StripKeepsTheCore(t[1..|t| - 1]);
      OneLayer(front, t, back, before, Stripped(s), after);
      before, after := front + ['('] + before, after + [')'] + back;
    } else {
      before, after := front, back;
    }
  }

  /** Parentheses go exactly when they are the outermost pair, one around the other. */
  lemma StripsJustPairs(s: string)
    ensures Stripped(s) == Trim(s) <==> !Wrapped(Trim(s))
    ensures Wrapped(Trim(s)) ==> |Trim(s)| >= 2 && Stripped(s) == Stripped(Trim(s)[1..|Trim(s)| - 1])
    ensures exists front, back :: Blank(front) && Blank(back) && s == front + Trim(s) + back
  {
    StrippedShape(s);
    var front, back := TrimTakesBlanks(s);
    if Wrapped(Trim(s)) {
      WrappedIsLong(Trim(s));
    }
  }

  /** Two pairs side by side are no outermost pair. */
  lemma SideBySideStays()
    ensures !Wrapped("(a)||(b)")
  {
    var value := "(a)||(b)";
    assert QuoteAt(value, 0, 1) == None && QuoteAt(value, 0, 2) == None && QuoteAt(value, 0, 3) == None;
    assert Level(value, 0, 1) == 1 && Level(value, 0, 2) == 1 && Level(value, 0, 3) == 0;
    assert ClosesAt(value, 0, 2);
  }

  /** Inside one kind of quote neither parentheses nor the other kind of quote count. */
  lemma QuotesHide()
    ensures Wrapped("('\")')")
  {
    var value := "('\")')";
    assert QuoteAt(value, 0, 1) == None && QuoteAt(value, 0, 2) == Some('\'') && QuoteAt(value, 0, 3) == Some('\'');
    assert QuoteAt(value, 0, 4) == Some('\'') && QuoteAt(value, 0, 5) == None;
    assert Level(value, 0, 1) == 1 && Level(value, 0, 2) == 1 && Level(value, 0, 3) == 1;
    assert Level(value, 0, 4) == 1 && Level(value, 0, 5) == 1 && Level(value, 0, 6) == 0;
  }
}
