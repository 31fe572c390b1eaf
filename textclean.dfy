/** `clean_text` from src/codesystem/main.py: five whole-string rewrites applied in a fixed order. */
module TextClean {
  import opened PyStr

  /** Leftmost, non-overlapping replacement of the two-character escape `\` `c` by `rep`
      (Python's `re.sub(r'\\c', rep, s)`). */
  function ReplaceEscape(s: string, c: char, rep: string): (r: string)
    requires rep != []
    ensures |s| > 0 ==> |r| > 0 && (r[0] == s[0] || r[0] == rep[0])
    decreases |s|
  {
    if |s| == 0 then s
    else if |s| >= 2 && s[0] == '\\' && s[1] == c then rep + ReplaceEscape(s[2..], c, rep)
    else
      [s[0]] + ReplaceEscape(s[1..], c, rep)
  }

  /** Text in which the escape never occurs is left as it is. */
  lemma {:induction false} ReplaceEscapeWithoutEscape(s: string, c: char, rep: string)
    requires rep != [] && NoPair(s, '\\', c)
    ensures ReplaceEscape(s, c, rep) == s
    decreases |s|
  {
    if |s| > 0 {
      NoPairSlice(s, '\\', c, 1, |s|);
      ReplaceEscapeWithoutEscape(s[1..], c, rep);
      assert s == [s[0]] + s[1..];
    }
  }

  /** Text without a backslash passes through the escape rewrite unchanged, whatever
      follows it. */
  lemma {:induction false} ReplaceEscapeKeepsPlainPrefix(a: string, b: string, c: char, rep: string)
    requires rep != [] && '\\' !in a
    ensures ReplaceEscape(a + b, c, rep) == a + ReplaceEscape(b, c, rep)
    decreases |a|
  {
    if a == [] {
      assert a + b == b;
    } else {
      var s, t := a + b, a[1..] + b;
      ReplaceEscapeKeepsPlainPrefix(a[1..], b, c, rep);
      assert s[0] == a[0] && s[1..] == t;
      assert ReplaceEscape(s, c, rep) == [a[0]] + ReplaceEscape(t, c, rep);
      assert a == [a[0]] + a[1..];
    }
  }

  /** What the escape rewrite does, scanning left to right: text without a backslash is
      copied; a backslash followed by `c` becomes `rep`; a backslash followed by anything
      else is copied and scanning resumes at the character after it; a final backslash is
      copied. Every string has one of these shapes, so this determines the rewrite. */
  lemma ReplaceEscapeCases(a: string, d: char, b: string, c: char, rep: string)
    requires rep != [] && '\\' !in a
    ensures ReplaceEscape(a, c, rep) == a
    ensures ReplaceEscape(a + ['\\'], c, rep) == a + ['\\']
    ensures ReplaceEscape(a + ['\\', d] + b, c, rep)
      == a + (if d == c then rep + ReplaceEscape(b, c, rep) else ['\\'] + ReplaceEscape([d] + b, c, rep))
  {
    ReplaceEscapeKeepsPlainPrefix(a, [], c, rep);
    assert a + [] == a;
    ReplaceEscapeKeepsPlainPrefix(a, ['\\'], c, rep);
    ReplaceEscapeKeepsPlainPrefix(a, ['\\', d] + b, c, rep);
    assert a + ['\\', d] + b == a + (['\\', d] + b);
    var t := ['\\', d] + b;
    assert t[1..] == [d] + b && t[2..] == b;
  }

  /** Step 1: a literal backslash-`n` becomes one space. */
  function ReplaceLiteralNewlines(s: string): string {
    ReplaceEscape(s, 'n', " ")
  }

  /** Step 2: a literal backslash-`t` becomes four spaces. */
  function ReplaceLiteralTabs(s: string): string {
    ReplaceEscape(s, 't', "    ")
  }

  /** Step 3: every run of line feeds becomes a single line feed (`re.sub(r'\n+', '\n', s)`). */
  function CollapseNewlines(s: string): (r: string)
    ensures NoPair(r, '\n', '\n')
    ensures NoPair(s, '\n', '\n') ==> r == s
    ensures |s| > 0 ==> |r| > 0 && r[0] == s[0]
    decreases |s|
  {
    if |s| < 2 then s
    else
      var rest := CollapseNewlines(s[1..]);
      assert NoPair(s, '\n', '\n') ==> NoPair(s[1..], '\n', '\n') by {
        if NoPair(s, '\n', '\n') { NoPairSlice(s, '\n', '\n', 1, |s|); }
      }
      assert s == [s[0]] + s[1..];
      if s[0] == '\n' && s[1] == '\n' then rest else [s[0]] + rest
  }

  /** A run of line feeds collapses whatever surrounds it: two line feeds anywhere give the
      same result as one. With `CollapseNewlines` leaving pair-free text unchanged, this
      determines the rewrite: every run becomes one line feed and nothing else changes. */
  lemma {:induction false} CollapsePairOfLineFeeds(x: string, y: string)
    ensures CollapseNewlines(x + "\n\n" + y) == CollapseNewlines(x + "\n" + y)
    decreases |x|
  {
    if x == [] {
      assert ("\n\n" + y)[1..] == "\n" + y;
    } else {
      CollapsePairOfLineFeeds(x[1..], y);
      assert (x + "\n\n" + y)[1..] == x[1..] + "\n\n" + y;
      assert (x + "\n" + y)[1..] == x[1..] + "\n" + y;
    }
  }

  /** Step 4: every carriage return is deleted. */
  function DeleteCarriageReturns(s: string): (r: string)
    ensures '\r' !in r
    ensures '\r' !in s ==> r == s
    decreases |s|
  {
    if s == [] then s
    else
      assert s == [s[0]] + s[1..];
      if s[0] == '\r' then DeleteCarriageReturns(s[1..])
      else [s[0]] + DeleteCarriageReturns(s[1..])
  }

  /** Deleting carriage returns works character by character: it distributes over
      concatenation, removes a lone `\r` and keeps every other character, so the result is
      the input with its carriage returns taken out and the rest in order. */
  lemma {:induction false} DeleteCarriageReturnsPieces(a: string, b: string, x: char)
    ensures DeleteCarriageReturns(a + b) == DeleteCarriageReturns(a) + DeleteCarriageReturns(b)
    ensures DeleteCarriageReturns([x]) == if x == '\r' then [] else [x]
    decreases |a|
  {
    if a == [] {
      assert a + b == b;
    } else {
      DeleteCarriageReturnsPieces(a[1..], b, x);
      assert (a + b)[1..] == a[1..] + b;
    }
    assert [x][1..] == [];
  }

  /** `clean_text(text)`: the five rewrites, in the source's order. */
  function CleanText(s: string): string {
    Strip(DeleteCarriageReturns(CollapseNewlines(ReplaceLiteralTabs(ReplaceLiteralNewlines(s)))))
  }

  /** `clean_text` never returns a carriage return nor outer whitespace. */
  lemma CleanTextShape(s: string)
    ensures '\r' !in CleanText(s)
    ensures Stripped(CleanText(s))
  {
    var t := DeleteCarriageReturns(CollapseNewlines(ReplaceLiteralTabs(ReplaceLiteralNewlines(s))));
    StripKeepsAbsent(t, '\r');
  }

  /** The normal form `clean_text` aims at: no carriage return, no escape left, no two
      adjacent line feeds (a line of spaces or tabs may remain), no outer whitespace. */
  predicate Clean(s: string) {
    && '\r' !in s
    && NoPair(s, '\\', 'n')
    && NoPair(s, '\\', 't')
    && NoPair(s, '\n', '\n')
    && Stripped(s)
  }

  lemma NoPairCons(x: char, t: string, a: char, b: char)
    requires NoPair(t, a, b)
    requires t == [] || !(x == a && t[0] == b)
    ensures NoPair([x] + t, a, b)
  {
    var s := [x] + t;
    forall i | 0 <= i < |s| - 1 ensures !(s[i] == a && s[i + 1] == b) {
      if i > 0 { assert s[i] == t[i - 1] && s[i + 1] == t[i]; }
    }
  }

  lemma NoPairAppend(p: string, t: string, a: char, b: char)
    requires a !in p && NoPair(t, a, b)
    ensures NoPair(p + t, a, b)
  {
    var s := p + t;
    forall i | 0 <= i < |s| - 1 ensures !(s[i] == a && s[i + 1] == b) {
      if i >= |p| { assert s[i] == t[i - |p|] && s[i + 1] == t[i + 1 - |p|]; }
      else { assert s[i] == p[i]; }
    }
  }

  /** After replacing the escape `\c` by a text free of backslashes that does not start
      with `c`, no escape `\c` is left, even where replacing created a new backslash pair. */
  lemma {:induction false} ReplaceEscapeRemoves(s: string, c: char, rep: string, d: char)
    requires rep != [] && '\\' !in rep && rep[0] != d
    requires d == c || NoPair(s, '\\', d)
    ensures NoPair(ReplaceEscape(s, c, rep), '\\', d)
    decreases |s|
  {
    if |s| == 0 {
    } else if |s| >= 2 && s[0] == '\\' && s[1] == c {
      if d != c { NoPairSlice(s, '\\', d, 2, |s|); }
      ReplaceEscapeRemoves(s[2..], c, rep, d);
      NoPairAppend(rep, ReplaceEscape(s[2..], c, rep), '\\', d);
    } else {
      if d != c { NoPairSlice(s, '\\', d, 1, |s|); }
      ReplaceEscapeRemoves(s[1..], c, rep, d);
      var rest := ReplaceEscape(s[1..], c, rep);
      if s[0] == '\\' && rest != [] {
        assert s[1] != d;
      }
      NoPairCons(s[0], rest, '\\', d);
    }
  }

  lemma {:induction false} ReplaceEscapeKeepsAbsent(s: string, c: char, rep: string, x: char)
    requires rep != [] && x !in s && x !in rep
    ensures x !in ReplaceEscape(s, c, rep)
    decreases |s|
  {
    if |s| >= 2 && s[0] == '\\' && s[1] == c {
      ReplaceEscapeKeepsAbsent(s[2..], c, rep, x);
    } else if |s| > 0 {
      ReplaceEscapeKeepsAbsent(s[1..], c, rep, x);
    }
  }

  lemma {:induction false} CollapseKeepsAbsent(s: string, x: char)
    requires x !in s
    ensures x !in CollapseNewlines(s)
    decreases |s|
  {
    if |s| >= 2 {
      CollapseKeepsAbsent(s[1..], x);
    }
  }

  /** Collapsing line feeds keeps every "no `a` then `b`" property. */
  lemma {:induction false} CollapseKeepsNoPair(s: string, a: char, b: char)
    requires NoPair(s, a, b)
    ensures NoPair(CollapseNewlines(s), a, b)
    decreases |s|
  {
    if |s| >= 2 {
      NoPairSlice(s, a, b, 1, |s|);
      CollapseKeepsNoPair(s[1..], a, b);
      if !(s[0] == '\n' && s[1] == '\n') {
        NoPairCons(s[0], CollapseNewlines(s[1..]), a, b);
      }
    }
  }

  /** On input without carriage returns, `clean_text` reaches the normal form. */
  lemma CleanTextIsClean(s: string)
    requires '\r' !in s
    ensures Clean(CleanText(s))
  {
    var s1 := ReplaceLiteralNewlines(s);
    ReplaceEscapeRemoves(s, 'n', " ", 'n');
    var s2 := ReplaceLiteralTabs(s1);
    ReplaceEscapeRemoves(s1, 't', "    ", 't');
    ReplaceEscapeRemoves(s1, 't', "    ", 'n');
    var s3 := CollapseNewlines(s2);
    CollapseKeepsNoPair(s2, '\\', 'n');
    CollapseKeepsNoPair(s2, '\\', 't');
    ReplaceEscapeKeepsAbsent(s, 'n', " ", '\r');
    ReplaceEscapeKeepsAbsent(s1, 't', "    ", '\r');
    CollapseKeepsAbsent(s2, '\r');
    var s4 := DeleteCarriageReturns(s3);
    assert s4 == s3;
    StripKeepsNoPair(s4, '\\', 'n');
    StripKeepsNoPair(s4, '\\', 't');
    StripKeepsNoPair(s4, '\n', '\n');
  }

  /** Text already in normal form is left unchanged; the report placeholder is such a text. */
  lemma CleanTextFixpoint(s: string)
    requires Clean(s)
    ensures CleanText(s) == s
  {
    ReplaceEscapeWithoutEscape(s, 'n', " ");
    ReplaceEscapeWithoutEscape(s, 't', "    ");
  }

  /** Without carriage returns in the input, cleaning twice is cleaning once. */
  lemma CleanTextIdempotent(s: string)
    requires '\r' !in s
    ensures CleanText(CleanText(s)) == CleanText(s)
  {
    CleanTextIsClean(s);
    CleanTextFixpoint(CleanText(s));
  }

  lemma NoPairWithout(s: string, a: char, b: char)
    requires a !in s
    ensures NoPair(s, a, b)
  {
  }

  /** Without backslashes, only the last three steps of `clean_text` can change anything. */
  lemma CleanTextWithoutBackslash(s: string)
    requires '\\' !in s
    ensures CleanText(s) == Strip(DeleteCarriageReturns(CollapseNewlines(s)))
  {
    NoPairWithout(s, '\\', 'n');
    NoPairWithout(s, '\\', 't');
    ReplaceEscapeWithoutEscape(s, 'n', " ");
    ReplaceEscapeWithoutEscape(s, 't', "    ");
  }

  lemma DeleteBetweenLineFeeds(x: char, y: char)
    requires x != '\r' && y != '\r'
    ensures DeleteCarriageReturns([x, '\n', '\r', '\n', y]) == [x, '\n', '\n', y]
  {
    var s := [x, '\n', '\r', '\n', y];
    assert s[1..] == ['\n', '\r', '\n', y] && s[2..] == ['\r', '\n', y] && s[3..] == ['\n', y];
    assert DeleteCarriageReturns(['\n', y]) == ['\n', y];
    assert DeleteCarriageReturns(s[2..]) == ['\n', y];
  }

  lemma CollapseBlankLine(x: char, y: char)
    requires x != '\n' && y != '\n'
    ensures CollapseNewlines([x, '\n', '\n', y]) == [x, '\n', y]
  {
    var t := [x, '\n', '\n', y];
    assert t[1..] == ['\n', '\n', y] && t[2..] == ['\n', y];
    assert CollapseNewlines(['\n', y]) == ['\n', y];
    assert CollapseNewlines(t[1..]) == ['\n', y];
  }

  /** With a carriage return between two line feeds, one pass of `clean_text` leaves two
      adjacent line feeds (an empty line) that a second pass collapses: carriage returns are deleted only after line
      feeds were collapsed. `x` and `y` stand for any visible characters, as in `"a\n\r\nb"`. */
  lemma CleanTextNotIdempotentWithCarriageReturn(x: char, y: char)
    requires !IsSpace(x) && !IsSpace(y) && x != '\\' && y != '\\'
    ensures CleanText([x, '\n', '\r', '\n', y]) == [x, '\n', '\n', y]
    ensures CleanText(CleanText([x, '\n', '\r', '\n', y])) == [x, '\n', y]
  {
    var s := [x, '\n', '\r', '\n', y];
    CleanTextWithoutBackslash(s);
    assert NoPair(s, '\n', '\n');
    DeleteBetweenLineFeeds(x, y);
    CleanTextWithoutBackslash([x, '\n', '\n', y]);
    CollapseBlankLine(x, y);
  }

  /** The placeholder `"No output available"` is its own cleaned form. */
  lemma PlaceholderIsClean()
    ensures CleanText("No output available") == "No output available"
  {
    var s := "No output available";
    NoPairWithout(s, '\\', 'n');
    NoPairWithout(s, '\\', 't');
    NoPairWithout(s, '\n', '\n');
    CleanTextFixpoint(s);
  }
}
