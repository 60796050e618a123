/** The admin search: LIKE with ESCAPE, and the escaping that makes a term literal. */
module Search {

  import opened Ascii

  // ----- SQLite's LIKE ... ESCAPE '\' -----

  /**
   * SQLite folds ASCII letters only. `%` matches any run of characters, `_` any one character, `\` makes
   * the next character literal.
   */
  predicate Like(pattern: string, text: string)
    decreases |pattern| + |text|
  {
    if pattern == "" then text == ""
    else if pattern[0] == '%' then
      Like(pattern[1..], text) || (text != "" && Like(pattern, text[1..]))
    else if pattern[0] == '\\' then
      |pattern| >= 2 && text != "" && Fold(pattern[1]) == Fold(text[0]) && Like(pattern[2..], text[1..])
    else if pattern[0] == '_' then
      text != "" && Like(pattern[1..], text[1..])
    else
      text != "" && Fold(pattern[0]) == Fold(text[0]) && Like(pattern[1..], text[1..])
  }

  // ----- escaping: a backslash before every backslash, percent sign and underscore -----

  function EscapeChar(c: char): string
  {
    if c == '\\' || c == '%' || c == '_' then ['\\', c] else [c]
  }

  function Escape(term: string): string
  {
    if term == "" then "" else EscapeChar(term[0]) + Escape(term[1..])
  }

  function SearchPattern(term: string): string
  {
    "%" + Escape(term) + "%"
  }

  // ----- what a search should find -----

  /** `term` stands at position `i` of `text`, up to ASCII case. */
  ghost predicate OccursAt(term: string, text: string, i: nat)
  {
    && i + |term| <= |text|
    && forall k :: 0 <= k < |term| ==> Fold(text[i + k]) == Fold(term[k])
  }

  ghost predicate Occurs(term: string, text: string)
  {
    exists i :: OccursAt(term, text, i)
  }

  lemma {:induction false} PercentMatchesAll(text: string)
    ensures Like("%", text)
  {
    if text != "" {
      PercentMatchesAll(text[1..]);
    }
  }

  lemma OccursHead(term: string, text: string)
    requires term != ""
    ensures OccursAt(term, text, 0) <==>
            text != "" && Fold(term[0]) == Fold(text[0]) && OccursAt(term[1..], text[1..], 0)
  {
    if text != "" && Fold(term[0]) == Fold(text[0]) && OccursAt(term[1..], text[1..], 0) {
      forall k | 0 <= k < |term| ensures Fold(text[0 + k]) == Fold(term[k]) {
        if k > 0 {
          assert term[1..][k - 1] == term[k] && text[1..][0 + (k - 1)] == text[k];
        }
      }
    }
    if OccursAt(term, text, 0) {
      assert Fold(text[0 + 0]) == Fold(term[0]);
      forall k | 0 <= k < |term[1..]| ensures Fold(text[1..][0 + k]) == Fold(term[1..][k]) {
        assert text[1..][0 + k] == text[0 + (k + 1)] && term[1..][k] == term[k + 1];
      }
    }
  }

  /** An escaped character matches that character, up to case, and nothing else. */
  lemma EscapedChar(c: char, rest: string, text: string)
    ensures Like(EscapeChar(c) + rest, text) <==> text != "" && Fold(c) == Fold(text[0]) && Like(rest, text[1..])
  {
    var p := EscapeChar(c) + rest;
    if |EscapeChar(c)| == 2 {
      assert p[0] == '\\' && p[1] == c && p[2..] == rest;
    } else {
      assert p[0] == c && p[1..] == rest;
    }
  }

  /** Followed by `%`, an escaped term matches exactly the texts that begin with it. */
  lemma {:induction false} EscapedIsPrefix(term: string, text: string)
    ensures Like(Escape(term) + "%", text) <==> OccursAt(term, text, 0)
  {
    if term == "" {
      assert Escape(term) + "%" == "%";
      PercentMatchesAll(text);
    } else {
      var rest := Escape(term[1..]) + "%";
      assert Escape(term) + "%" == EscapeChar(term[0]) + rest;
      EscapedChar(term[0], rest, text);
      OccursHead(term, text);
      if text != "" {
        EscapedIsPrefix(term[1..], text[1..]);
      }
    }
  }

  lemma OccursShift(term: string, text: string, i: nat)
    requires text != ""
    ensures OccursAt(term, text[1..], i) <==> OccursAt(term, text, i + 1)
  {
    if OccursAt(term, text[1..], i) {
      forall k | 0 <= k < |term| ensures Fold(text[i + 1 + k]) == Fold(term[k]) {
        assert text[1..][i + k] == text[i + 1 + k];
      }
    }
    if OccursAt(term, text, i + 1) {
      forall k | 0 <= k < |term| ensures Fold(text[1..][i + k]) == Fold(term[k]) {
        assert text[1..][i + k] == text[i + 1 + k];
      }
    }
  }

  lemma OccursHereOrLater(term: string, text: string)
    ensures Occurs(term, text) <==> OccursAt(term, text, 0) || (text != "" && Occurs(term, text[1..]))
  {
    if text != "" {
      forall i: nat ensures OccursAt(term, text[1..], i) <==> OccursAt(term, text, i + 1) {
        OccursShift(term, text, i);
      }
      if Occurs(term, text) {
        var i: nat :| OccursAt(term, text, i);
        if i > 0 {
          assert OccursAt(term, text[1..], i - 1);
        }
      }
      if Occurs(term, text[1..]) {
        var i: nat :| OccursAt(term, text[1..], i);
        assert OccursAt(term, text, i + 1);
      }
    }
  }

  /**
   * Literal search: whatever the term contains, the escaped pattern matches exactly the texts in which
   * the term occurs as a contiguous substring, up to ASCII case.
   */
  lemma {:induction false} LiteralSearch(term: string, text: string)
    ensures Like(SearchPattern(term), text) <==> Occurs(term, text)
  {
    var p := SearchPattern(term);
    assert p[0] == '%' && p[1..] == Escape(term) + "%";
    EscapedIsPrefix(term, text);
    OccursHereOrLater(term, text);
    if text != "" {
      LiteralSearch(term, text[1..]);
    }
  }
}
