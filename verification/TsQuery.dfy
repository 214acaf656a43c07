/** Building a full-text query from user text, and a reader for PostgreSQL's quoted lexemes. */
module TsQuery {
  import opened Options
  import opened Limits

  const MAX_CHARS: nat := 200
  const MAX_TOKENS: nat := 8

  /** The Unicode classes the builder consults. */
  datatype Classes = Classes(space: char -> bool, alphanumeric: char -> bool, control: char -> bool)

  function TrimStart(classes: Classes, s: string): string {
    if s != "" && classes.space(s[0]) then TrimStart(classes, s[1..]) else s
  }

  function TrimEnd(classes: Classes, s: string): string {
    if s != "" && classes.space(s[|s| - 1]) then TrimEnd(classes, s[..|s| - 1]) else s
  }

  function WithoutControls(classes: Classes, s: string): string {
    if s == "" then "" else (if classes.control(s[0]) then "" else [s[0]]) + WithoutControls(classes, s[1..])
  }

  /** Trimmed first, then without control characters. */
  function Normalised(classes: Classes, text: string): string {
    WithoutControls(classes, TrimEnd(classes, TrimStart(classes, text)))
  }

  /** A non-space character in front of the tokens: part of the first one if no space is between. */
  function AddChar(c: char, joins: bool, tokens: seq<string>): seq<string> {
    if joins && tokens != [] then [[c] + tokens[0]] + tokens[1..] else [[c]] + tokens
  }

  /** `split_whitespace`: the maximal runs of non-space characters. */
  function Tokens(classes: Classes, s: string): seq<string> {
    if s == "" then []
    else if classes.space(s[0]) then Tokens(classes, s[1..])
    else AddChar(s[0], |s| > 1 && !classes.space(s[1]), Tokens(classes, s[1..]))
  }

  predicate Searchable(classes: Classes, token: string) {
    exists i :: 0 <= i < |token| && classes.alphanumeric(token[i])
  }

  function Kept(classes: Classes, tokens: seq<string>): seq<string> {
    if tokens == [] then []
    else
      var last := tokens[|tokens| - 1];
      Kept(classes, tokens[..|tokens| - 1]) + if Searchable(classes, last) then [last] else []
  }

  /** The tokens searched for. */
  function Wanted(classes: Classes, normalized: string): seq<string> {
    Take(Kept(classes, Tokens(classes, normalized)), MAX_TOKENS)
  }

  /** `str::replace` of one character by two. */
  function Replaced(s: string, c: char, pair: string): string {
    if s == "" then "" else (if s[0] == c then pair else [s[0]]) + Replaced(s[1..], c, pair)
  }

  function Escaped(token: string): string { Replaced(Replaced(token, '\\', "\\\\"), '\'', "''") }

  function Lexeme(token: string): string {
    "'" + Escaped(token) + "':*"
  }

  function Joined(tokens: seq<string>): string {
    if tokens == [] then ""
    else if |tokens| == 1 then Lexeme(tokens[0])
    else Lexeme(tokens[0]) + " & " + Joined(tokens[1..])
  }

  datatype Built = TooLong | Nothing | Query(tsquery: string, normalized: string)

  /** The builder, on text that is already trimmed and NFC-normalised. */
  function BuildTsQuery(classes: Classes, text: string): Built {
    var normalized := Normalised(classes, text);
    if |normalized| > MAX_CHARS then TooLong
    else
      var tokens := Wanted(classes, normalized);
      if tokens == [] then Nothing else Query(Joined(tokens), normalized)
  }

  /** The rest of a quoted lexeme after its opening quote: a backslash takes the next character, a doubled
      quote is one. */
  function ReadLexeme(s: string): (r: Option<(string, string)>)
    ensures r.Some? ==> |r.value.1| < |s|
    decreases |s|
  {
    if s == "" then None
    else if s[0] == '\\' then
      if |s| == 1 then None
      else
        match ReadLexeme(s[2..])
        case None => None
        case Some(l) => Some(([s[1]] + l.0, l.1))
    else if s[0] == '\'' then
      if |s| >= 2 && s[1] == '\'' then
        match ReadLexeme(s[2..])
        case None => None
        case Some(l) => Some(("'" + l.0, l.1))
      else Some(("", s[1..]))
    else
      match ReadLexeme(s[1..])
      case None => None
      case Some(l) => Some(([s[0]] + l.0, l.1))
  }

  /** A conjunction of quoted prefix lexemes, and nothing else. */
  function ReadTsQuery(s: string): Option<seq<string>>
    decreases |s|
  {
    if s == "" || s[0] != '\'' then None
    else
      match ReadLexeme(s[1..])
      case None => None
      case Some(l) =>
        if l.1 == ":*" then Some([l.0])
        else if |l.1| < 5 || l.1[..5] != ":* & " then None
        else
          match ReadTsQuery(l.1[5..])
          case None => None
          case Some(more) => Some([l.0] + more)
  }

  lemma ReplacedHead(c: char, rest: string, from: char, pair: string)
    ensures Replaced([c] + rest, from, pair) == (if c == from then pair else [c]) + Replaced(rest, from, pair)
  {
    assert ([c] + rest)[1..] == rest;
  }

  lemma EscapedHead(token: string)
    requires token != ""
    ensures Escaped(token)
      == (if token[0] == '\\' then "\\\\" else if token[0] == '\'' then "''" else [token[0]]) + Escaped(token[1..])
  {
    var inner := Replaced(token[1..], '\\', "\\\\");
    assert token == [token[0]] + token[1..];
    ReplacedHead(token[0], token[1..], '\\', "\\\\");
    if token[0] == '\\' {
      assert "\\\\" + inner == ['\\'] + (['\\'] + inner);
      ReplacedHead('\\', ['\\'] + inner, '\'', "''");
      ReplacedHead('\\', inner, '\'', "''");
    } else {
      ReplacedHead(token[0], inner, '\'', "''");
    }
  }

  /** Whatever quotes and backslashes a token holds, the reader gets it back. */
  lemma {:induction false} LexemeReads(token: string, rest: string)
    requires rest == "" || rest[0] != '\''
    ensures ReadLexeme(Escaped(token) + "'" + rest) == Some((token, rest))
  {
    var all := Escaped(token) + "'" + rest;
    if token == "" {
      assert all == "'" + rest;
    } else {
      EscapedHead(token);
      LexemeReads(token[1..], rest);
      var head := if token[0] == '\\' then "\\\\" else if token[0] == '\'' then "''" else [token[0]];
      assert all == head + (Escaped(token[1..]) + "'" + rest);
      assert all[|head|..] == Escaped(token[1..]) + "'" + rest;
      assert token == [token[0]] + token[1..];
    }
  }

  lemma LastLexeme(token: string)
    ensures ReadTsQuery(Lexeme(token)) == Some([token])
  {
    LexemeReads(token, ":*");
    assert Lexeme(token)[1..] == Escaped(token) + "'" + ":*";
  }

  lemma NextLexeme(token: string, more: string, tokens: seq<string>)
    requires ReadTsQuery(more) == Some(tokens)
    ensures ReadTsQuery(Lexeme(token) + " & " + more) == Some([token] + tokens)
  {
    var after := ":* & " + more;
    LexemeReads(token, after);
    NextLexemeParts(Escaped(token), more);
    assert |after| > 2;
  }

  lemma NextLexemeParts(escaped: string, more: string)
    ensures ("'" + escaped + "':*" + " & " + more)[1..] == escaped + "'" + (":* & " + more)
    ensures (":* & " + more)[..5] == ":* & " && (":* & " + more)[5..] == more
  {
  }

  lemma {:induction false} JoinedReads(tokens: seq<string>)
    requires tokens != []
    ensures ReadTsQuery(Joined(tokens)) == Some(tokens)
  {
    if |tokens| == 1 {
      LastLexeme(tokens[0]);
      assert tokens == [tokens[0]];
    } else {
      JoinedReads(tokens[1..]);
      NextLexeme(tokens[0], Joined(tokens[1..]), tokens[1..]);
      assert tokens == [tokens[0]] + tokens[1..];
    }
  }

  predicate NoSpace(classes: Classes, s: string) { forall i :: 0 <= i < |s| ==> !classes.space(s[i]) }

  /** A run without spaces is one token … */
  lemma {:induction false} RunIsToken(classes: Classes, s: string)
    requires s != "" && NoSpace(classes, s)
    ensures Tokens(classes, s) == [s]
  {
    assert [s[0]] + s[1..] == s;
    if |s| > 1 {
      RunIsToken(classes, s[1..]);
    } else {
      assert s[1..] == "";
      assert Tokens(classes, s) == AddChar(s[0], false, Tokens(classes, s[1..]));
      assert [s[0]] == s;
    }
  }

  /** … and a space separates the tokens before it from those after it. The two facts determine the tokens. */
  lemma {:induction false} SpaceSeparates(classes: Classes, a: string, c: char, b: string)
    requires classes.space(c)
    ensures Tokens(classes, a + [c] + b) == Tokens(classes, a) + Tokens(classes, b)
  {
    var all := a + [c] + b;
    if a == "" {
      assert all == [c] + b;
    } else {
      SpaceSeparates(classes, a[1..], c, b);
      assert all[1..] == a[1..] + [c] + b;
      if !classes.space(a[0]) {
        var joins := |all| > 1 && !classes.space(all[1]);
        assert joins <==> |a| > 1 && !classes.space(a[1]);
        assert joins ==> Tokens(classes, a[1..]) != [];
        AddCharToFirst(a[0], joins, Tokens(classes, a[1..]), Tokens(classes, b));
      }
    }
  }

  lemma AddCharToFirst(c: char, joins: bool, a: seq<string>, b: seq<string>)
    requires joins ==> a != []
    ensures AddChar(c, joins, a + b) == AddChar(c, joins, a) + b
  {
  }

  lemma {:induction false} TokensAreRuns(classes: Classes, s: string)
    ensures forall t :: t in Tokens(classes, s) ==> t != "" && NoSpace(classes, t)
  {
    if s != "" {
      TokensAreRuns(classes, s[1..]);
      var rest := Tokens(classes, s[1..]);
      if rest != [] {
        assert rest[0] in rest && forall t :: t in rest[1..] ==> t in rest;
        assert NoSpace(classes, rest[0]);
      }
    }
  }

  lemma {:induction false} KeptAre(classes: Classes, tokens: seq<string>)
    ensures forall t :: t in Kept(classes, tokens) <==> t in tokens && Searchable(classes, t)
  {
    if tokens != [] {
      KeptAre(classes, tokens[..|tokens| - 1]);
      assert tokens == tokens[..|tokens| - 1] + [tokens[|tokens| - 1]];
    }
  }

  /** Which tokens are kept: their places, ascending, and no searchable token has another place. */
  predicate PlacesOf(classes: Classes, tokens: seq<string>, kept: seq<string>, at: seq<nat>) {
    && |at| == |kept| && (forall i :: 0 <= i < |at| ==> at[i] < |tokens| && tokens[at[i]] == kept[i])
    && (forall i, j :: 0 <= i < j < |at| ==> at[i] < at[j])
    && (forall t :: 0 <= t < |tokens| && Searchable(classes, tokens[t]) ==> t in at)
  }

  lemma PlacesStay(classes: Classes, before: seq<string>, last: string, kept: seq<string>, at: seq<nat>)
    requires PlacesOf(classes, before, kept, at) && !Searchable(classes, last)
    ensures PlacesOf(classes, before + [last], kept, at)
  {
  }

  lemma OnePlaceMore(classes: Classes, before: seq<string>, last: string, kept: seq<string>, at: seq<nat>)
    requires PlacesOf(classes, before, kept, at)
    ensures PlacesOf(classes, before + [last], kept + [last], at + [|before|])
  {
    var all := before + [last];
    forall t | 0 <= t < |all| && Searchable(classes, all[t]) ensures t in at + [|before|] {
      if t < |before| {
        assert Searchable(classes, before[t]);
      }
    }
  }

  lemma {:induction false} KeptPlaces(classes: Classes, tokens: seq<string>) returns (at: seq<nat>)
    ensures PlacesOf(classes, tokens, Kept(classes, tokens), at)
  {
    at := [];
    if tokens != [] {
      var before, last := tokens[..|tokens| - 1], tokens[|tokens| - 1];
      at := KeptPlaces(classes, before);
      assert tokens == before + [last];
      if Searchable(classes, last) {
        OnePlaceMore(classes, before, last, Kept(classes, before), at);
        at := at + [|before|];
      } else {
        PlacesStay(classes, before, last, Kept(classes, before), at);
      }
    }
  }

  /** The tokens searched for are the first searchable ones: each stands where `at` says, and a searchable token
      that is left out stands after eight of them. */
  lemma WantedAreFirst(classes: Classes, normalized: string) returns (at: seq<nat>)
    ensures var tokens, wanted := Tokens(classes, normalized), Wanted(classes, normalized);
      && |at| == |wanted| && (forall i :: 0 <= i < |at| ==> at[i] < |tokens| && tokens[at[i]] == wanted[i])
      && (forall i, j :: 0 <= i < j < |at| ==> at[i] < at[j])
      && (forall t :: 0 <= t < |tokens| && Searchable(classes, tokens[t]) && t !in at ==> |at| == 8 && at[7] < t)
  {
    var tokens := Tokens(classes, normalized);
    var places := KeptPlaces(classes, tokens);
    at := Take(places, MAX_TOKENS);
    assert forall i :: 0 <= i < |at| ==> at[i] == places[i] && places[i] in at;
    forall t | 0 <= t < |tokens| && Searchable(classes, tokens[t]) && t !in at ensures |at| == 8 && at[7] < t {
      var i :| 0 <= i < |places| && places[i] == t;
      assert i >= |at|;
    }
  }

  lemma {:induction false} TrimStartIs(classes: Classes, s: string) returns (n: nat)
    ensures n <= |s| && TrimStart(classes, s) == s[n..] && forall i :: 0 <= i < n ==> classes.space(s[i])
    ensures n < |s| ==> !classes.space(s[n])
  {
    n := 0;
    if s != "" && classes.space(s[0]) {
      n := TrimStartIs(classes, s[1..]);
      n := n + 1;
    }
  }

  lemma {:induction false} TrimEndIs(classes: Classes, s: string) returns (n: nat)
    ensures n <= |s| && TrimEnd(classes, s) == s[..n] && forall i :: n <= i < |s| ==> classes.space(s[i])
    ensures n > 0 ==> !classes.space(s[n - 1])
  {
    n := |s|;
    if s != "" && classes.space(s[|s| - 1]) {
      n := TrimEndIs(classes, s[..|s| - 1]);
    }
  }

  /** Trimming takes the spaces off both ends and nothing else. */
  lemma TrimmedIs(classes: Classes, text: string) returns (from: nat, to: nat)
    ensures from <= to <= |text| && TrimEnd(classes, TrimStart(classes, text)) == text[from..to]
    ensures forall i :: 0 <= i < from || to <= i < |text| ==> classes.space(text[i])
    ensures from < to ==> !classes.space(text[from]) && !classes.space(text[to - 1])
  {
    from := TrimStartIs(classes, text);
    var n := TrimEndIs(classes, text[from..]);
    to := from + n;
    assert text[from..][..n] == text[from..to];
    forall i | to <= i < |text| ensures classes.space(text[i]) {
      assert text[from..][i - from] == text[i];
    }
  }

  /** Control characters vanish wherever they stand … */
  lemma {:induction false} ControlVanishes(classes: Classes, a: string, c: char, b: string)
    requires classes.control(c)
    ensures WithoutControls(classes, a + [c] + b) == WithoutControls(classes, a) + WithoutControls(classes, b)
  {
    if a == "" {
      assert a + [c] + b == [c] + b;
    } else {
      ControlVanishes(classes, a[1..], c, b);
      assert (a + [c] + b)[1..] == a[1..] + [c] + b;
    }
  }

  /** … and nothing else does. */
  lemma {:induction false} OthersStay(classes: Classes, s: string)
    requires forall i :: 0 <= i < |s| ==> !classes.control(s[i])
    ensures WithoutControls(classes, s) == s
  {
    if s != "" {
      OthersStay(classes, s[1..]);
      assert s == [s[0]] + s[1..];
    }
  }

  predicate Ordinary(classes: Classes, s: string) {
    s != "" && NoSpace(classes, s) && forall i :: 0 <= i < |s| ==> !classes.control(s[i])
  }

  /** So two words with only a line break between them are searched as one. */
  lemma ControlSpaceJoins(classes: Classes, a: string, c: char, b: string)
    requires classes.space(c) && classes.control(c) && Ordinary(classes, a) && Ordinary(classes, b)
    ensures Tokens(classes, Normalised(classes, a + [c] + b)) == [a + b]
  {
    var text := a + [c] + b;
    assert text[0] == a[0] && text[|text| - 1] == b[|b| - 1];
    assert Normalised(classes, text) == WithoutControls(classes, text);
    ControlVanishes(classes, a, c, b);
    OthersStay(classes, a);
    OthersStay(classes, b);
    RunIsToken(classes, a + b);
  }

  /** The query reads back as the first eight searchable tokens; there is none iff no token is searchable. */
  lemma QueryReadsBack(classes: Classes, text: string)
    ensures var normalized := Normalised(classes, text);
      match BuildTsQuery(classes, text)
      case TooLong => |normalized| > MAX_CHARS
      case Nothing =>
        && |normalized| <= MAX_CHARS
        && (forall t :: t in Tokens(classes, normalized) ==> !Searchable(classes, t))
      case Query(tsquery, kept) =>
        && |normalized| <= MAX_CHARS && kept == normalized
        && ReadTsQuery(tsquery) == Some(Wanted(classes, normalized))
        && 1 <= |Wanted(classes, normalized)| <= MAX_TOKENS
        && (forall t :: t in Wanted(classes, normalized) ==> t != "" && NoSpace(classes, t) && Searchable(classes, t))
  {
    var normalized := Normalised(classes, text);
    var tokens := Tokens(classes, normalized);
    KeptAre(classes, tokens);
    TokensAreRuns(classes, normalized);
    assert forall t :: t in Wanted(classes, normalized) ==> t in Kept(classes, tokens);
    if Wanted(classes, normalized) == [] {
      assert Kept(classes, tokens) == [];
      forall t | t in tokens ensures !Searchable(classes, t) {
        assert t !in Kept(classes, tokens);
      }
    } else {
      JoinedReads(Wanted(classes, normalized));
    }
  }
}
