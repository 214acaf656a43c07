/** Escaping search text for SQL LIKE, and the matcher that reads the pattern. */
module LikeEscape {
  predicate Special(c: char) { c == '\\' || c == '%' || c == '_' }

  function Escaped(raw: string): string {
    if raw == "" then ""
    else Escaped(raw[..|raw| - 1]) + (if Special(raw[|raw| - 1]) then "\\" else "") + [raw[|raw| - 1]]
  }

  method EscapeLike(raw: string) returns (out: string)
    ensures out == Escaped(raw)
  {
    out := "";
    for i := 0 to |raw|
      invariant out == Escaped(raw[..i])
    {
      assert raw[..i + 1][..i] == raw[..i];
      var c := raw[i];
      if Special(c) {
        out := out + "\\";
      }
      out := out + [c];
    }
    assert raw[..|raw|] == raw;
  }

  /** Characters compare after folding; LIKE folds with the identity, ILIKE to one case. */
  type Fold = char -> char

  /** `text LIKE pattern ESCAPE '\'`; a pattern that ends in the escape character matches nothing here. */
  predicate Like(fold: Fold, pattern: string, text: string)
    decreases |pattern|, |text|
  {
    if pattern == "" then text == ""
    else if pattern[0] == '%' then Like(fold, pattern[1..], text) || (text != "" && Like(fold, pattern, text[1..]))
    else if text == "" then false
    else if pattern[0] == '_' then Like(fold, pattern[1..], text[1..])
    else if pattern[0] == '\\' then
      |pattern| >= 2 && fold(pattern[1]) == fold(text[0]) && Like(fold, pattern[2..], text[1..])
    else fold(pattern[0]) == fold(text[0]) && Like(fold, pattern[1..], text[1..])
  }

  /** PostgreSQL rejects a pattern whose last escape character escapes nothing. */
  predicate Accepted(pattern: string) {
    pattern == "" ||
    (if pattern[0] == '\\' then |pattern| >= 2 && Accepted(pattern[2..]) else Accepted(pattern[1..]))
  }

  predicate Same(fold: Fold, a: string, b: string) {
    |a| == |b| && forall i :: 0 <= i < |a| ==> fold(a[i]) == fold(b[i])
  }

  lemma {:induction false} EscapedHead(raw: string)
    requires raw != ""
    ensures Escaped(raw) == (if Special(raw[0]) then "\\" else "") + [raw[0]] + Escaped(raw[1..])
  {
    if |raw| > 1 {
      EscapedHead(raw[..|raw| - 1]);
      assert raw[..|raw| - 1][1..] == raw[1..][..|raw| - 2];
      assert raw[1..][|raw| - 2] == raw[|raw| - 1];
    } else {
      assert raw[..0] == "" && raw[1..] == "";
    }
  }

  /** Escaped text consumes exactly the text it stands for, whatever pattern follows. */
  lemma {:induction false} EscapedConsumes(fold: Fold, q: string, rest: string, text: string)
    ensures Like(fold, Escaped(q) + rest, text)
      <==> |q| <= |text| && Same(fold, q, text[..|q|]) && Like(fold, rest, text[|q|..])
  {
    if q == "" {
      assert Escaped(q) + rest == rest && text[0..] == text;
    } else {
      EscapedHead(q);
      var lead := (if Special(q[0]) then "\\" else "") + [q[0]];
      assert Escaped(q) + rest == lead + (Escaped(q[1..]) + rest);
      assert (lead + (Escaped(q[1..]) + rest))[|lead|..] == Escaped(q[1..]) + rest;
      if text != "" {
        EscapedConsumes(fold, q[1..], rest, text[1..]);
        SameTail(fold, q, text);
      }
    }
  }

  lemma SameTail(fold: Fold, q: string, text: string)
    requires q != "" && text != ""
    ensures |q| <= |text| ==>
      (Same(fold, q, text[..|q|]) <==> fold(q[0]) == fold(text[0]) && Same(fold, q[1..], text[1..][..|q| - 1]))
    ensures |q| <= |text| ==> text[1..][|q| - 1..] == text[|q|..]
  {
    if |q| <= |text| && fold(q[0]) == fold(text[0]) && Same(fold, q[1..], text[1..][..|q| - 1]) {
      forall i | 0 <= i < |q| ensures fold(q[i]) == fold(text[..|q|][i]) {
        if i > 0 {
          assert q[1..][i - 1] == q[i] && text[1..][..|q| - 1][i - 1] == text[i];
        }
      }
    }
    if |q| <= |text| && Same(fold, q, text[..|q|]) {
      assert forall i :: 0 <= i < |q| - 1 ==> q[1..][i] == q[i + 1] && text[1..][..|q| - 1][i] == text[..|q|][i + 1];
    }
  }

  lemma {:induction false} PercentMatchesAll(fold: Fold, text: string)
    ensures Like(fold, "%", text)
  {
    assert "%"[1..] == "";
    if text != "" {
      PercentMatchesAll(fold, text[1..]);
    }
  }

  lemma {:induction false} PercentSkips(fold: Fold, rest: string, text: string)
    ensures Like(fold, "%" + rest, text) <==> exists i :: 0 <= i <= |text| && Like(fold, rest, text[i..])
    decreases |text|
  {
    assert ("%" + rest)[1..] == rest;
    assert text[0..] == text;
    if text != "" {
      PercentSkips(fold, rest, text[1..]);
      if Like(fold, "%" + rest, text[1..]) {
        var i :| 0 <= i <= |text[1..]| && Like(fold, rest, text[1..][i..]);
        assert text[1..][i..] == text[i + 1..];
      }
      if i :| 1 <= i <= |text| && Like(fold, rest, text[i..]) {
        assert text[1..][i - 1..] == text[i..];
      }
    }
  }

  predicate OccursAt(fold: Fold, q: string, text: string, i: nat) {
    i + |q| <= |text| && Same(fold, q, text[i..i + |q|])
  }

  lemma PrefixFrom(fold: Fold, q: string, text: string, i: nat)
    requires i <= |text|
    ensures Like(fold, Escaped(q) + "%", text[i..]) <==> OccursAt(fold, q, text, i)
  {
    var tail := text[i..];
    EscapedConsumes(fold, q, "%", tail);
    if |q| <= |tail| {
      PercentMatchesAll(fold, tail[|q|..]);
      assert tail[..|q|] == text[i..i + |q|];
    }
  }

  /** Prefix search: a text matches iff it begins with the query. */
  lemma PrefixSearch(fold: Fold, q: string, text: string)
    ensures Like(fold, Escaped(q) + "%", text) <==> OccursAt(fold, q, text, 0)
  {
    PrefixFrom(fold, q, text, 0);
    assert text[0..] == text;
  }

  /** Substring search: a text matches iff the query occurs in it. */
  lemma SubstringSearch(fold: Fold, q: string, text: string)
    ensures Like(fold, "%" + Escaped(q) + "%", text) <==> exists i: nat :: OccursAt(fold, q, text, i)
  {
    var tail := Escaped(q) + "%";
    assert "%" + Escaped(q) + "%" == "%" + tail;
    PercentSkips(fold, tail, text);
    if Like(fold, "%" + tail, text) {
      var i :| 0 <= i <= |text| && Like(fold, tail, text[i..]);
      PrefixFrom(fold, q, text, i);
    }
    if i: nat :| OccursAt(fold, q, text, i) {
      PrefixFrom(fold, q, text, i);
    }
  }

  /** The pattern is one PostgreSQL accepts. */
  lemma {:induction false} PatternAccepted(q: string, rest: string)
    requires Accepted(rest)
    ensures Accepted(Escaped(q) + rest)
  {
    if q == "" {
      assert Escaped(q) + rest == rest;
    } else {
      PatternAccepted(q[1..], rest);
      EscapedHead(q);
      var lead := (if Special(q[0]) then "\\" else "") + [q[0]];
      assert (Escaped(q) + rest)[|lead|..] == Escaped(q[1..]) + rest;
    }
  }

  lemma SearchPatternsAccepted(q: string)
    ensures Accepted(Escaped(q) + "%") && Accepted("%" + Escaped(q) + "%")
  {
    assert "%"[1..] == "";
    PatternAccepted(q, "%");
    var tail := Escaped(q) + "%";
    assert "%" + Escaped(q) + "%" == "%" + tail;
    assert ("%" + tail)[1..] == tail;
  }
}
