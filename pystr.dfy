/** The parts of Python's `str` that the modelled code relies on: `isspace`, `strip`,
    `split(sep)`, `split(sep, 1)` and `sep.join`. Strings are sequences of code points. */
module PyStr {
  import opened Wrappers

  /** `c.isspace()`: the characters Python's `str.strip()` removes. */
  predicate IsSpace(c: char) {
    var n := c as int;
    (9 <= n <= 13) || (28 <= n <= 32) || n == 0x85 || n == 0xA0 || n == 0x1680
    || (0x2000 <= n <= 0x200A) || n == 0x2028 || n == 0x2029 || n == 0x202F
    || n == 0x205F || n == 0x3000
  }

  /** True when `s` neither starts nor ends with whitespace. */
  predicate Stripped(s: string) {
    s == [] || (!IsSpace(s[0]) && !IsSpace(s[|s| - 1]))
  }

  /** The first index at or after `i` that holds no whitespace, or `|s|`. */
  function SkipSpace(s: string, i: nat): (n: nat)
    requires i <= |s|
    ensures i <= n <= |s|
    ensures forall k :: i <= k < n ==> IsSpace(s[k])
    ensures n == |s| || !IsSpace(s[n])
    decreases |s| - i
  {
    if i < |s| && IsSpace(s[i]) then SkipSpace(s, i + 1) else i
  }

  /** The least end `n` in `[i, j]` such that `s[n..j]` is all whitespace. */
  function SkipSpaceBack(s: string, i: nat, j: nat): (n: nat)
    requires i <= j <= |s|
    ensures i <= n <= j
    ensures forall k :: n <= k < j ==> IsSpace(s[k])
    ensures n == i || !IsSpace(s[n - 1])
    decreases j
  {
    if i < j && IsSpace(s[j - 1]) then SkipSpaceBack(s, i, j - 1) else j
  }

  /** `s.strip()`: the longest slice of `s` that has no whitespace at either end. */
  function Strip(s: string): (r: string)
    ensures Stripped(r)
    ensures Stripped(s) ==> r == s
  {
    var i := SkipSpace(s, 0);
    var j := SkipSpaceBack(s, i, |s|);
    assert i < j ==> !IsSpace(s[i]);
    s[i..j]
  }

  /** `s.strip()` removes exactly the whitespace at both ends: it keeps one slice of `s`,
      everything before and after that slice is whitespace, and the slice itself neither
      starts nor ends with whitespace (see `Strip`). */
  lemma StripSlice(s: string) returns (i: nat, j: nat)
    ensures i <= j <= |s| && Strip(s) == s[i..j]
    ensures IsBlank(s[..i]) && IsBlank(s[j..])
  {
    i := SkipSpace(s, 0);
    j := SkipSpaceBack(s, i, |s|);
  }

  /** `not s.strip()`: the string is all whitespace (see `BlankIffStripsToEmpty`). */
  predicate IsBlank(s: string) {
    forall k :: 0 <= k < |s| ==> IsSpace(s[k])
  }

  /** A string is blank exactly when `strip()` leaves nothing of it. */
  lemma BlankIffStripsToEmpty(s: string)
    ensures IsBlank(s) <==> Strip(s) == []
  {
    var i := SkipSpace(s, 0);
    var j := SkipSpaceBack(s, i, |s|);
    if i < j {
      assert !IsSpace(s[i]);
    }
  }

  /** No position of `s` holds `a` immediately followed by `b`. */
  predicate NoPair(s: string, a: char, b: char) {
    forall i :: 0 <= i < |s| - 1 ==> !(s[i] == a && s[i + 1] == b)
  }

  lemma NoPairSlice(s: string, a: char, b: char, i: int, j: int)
    requires NoPair(s, a, b) && 0 <= i <= j <= |s|
    ensures NoPair(s[i..j], a, b)
  {
    var t := s[i..j];
    forall k | 0 <= k < |t| - 1 ensures !(t[k] == a && t[k + 1] == b) {
      assert t[k] == s[i + k] && t[k + 1] == s[i + k + 1];
    }
  }

  /** Python's `s.strip()` keeps a slice, so it keeps every "no `a` then `b`" property. */
  lemma StripKeepsNoPair(s: string, a: char, b: char)
    requires NoPair(s, a, b)
    ensures NoPair(Strip(s), a, b)
  {
    var i, j := StripSlice(s);
    NoPairSlice(s, a, b, i, j);
  }

  lemma StripKeepsAbsent(s: string, c: char)
    requires c !in s
    ensures c !in Strip(s)
  {
    var i, j := StripSlice(s);
    assert forall x :: x in s[i..j] ==> x in s;
  }

  /** `t` occurs in `s` as a contiguous block. */
  predicate Occurs(s: string, t: string)
    decreases |s|
  {
    |s| >= |t| && (s[..|t|] == t || Occurs(s[1..], t))
  }

  /** `s.split(sep)` for a non-empty `sep`: cut at every leftmost non-overlapping occurrence. */
  function Split(s: string, sep: string): (r: seq<string>)
    requires sep != []
    ensures |r| >= 1
    decreases |s|
  {
    if |s| < |sep| then [s]
    else if s[..|sep|] == sep then [""] + Split(s[|sep|..], sep)
    else
      var rest := Split(s[1..], sep);
      [[s[0]] + rest[0]] + rest[1..]
  }

  /** `s.count(sep)` for a non-empty `sep`: the number of leftmost non-overlapping occurrences. */
  function Count(s: string, sep: string): nat
    requires sep != []
    decreases |s|
  {
    if |s| < |sep| then 0
    else if s[..|sep|] == sep then 1 + Count(s[|sep|..], sep)
    else Count(s[1..], sep)
  }

  /** `sep.join(parts)`. */
  function Join(parts: seq<string>, sep: string): string
    requires |parts| >= 1
  {
    if |parts| == 1 then parts[0] else parts[0] + sep + Join(parts[1..], sep)
  }

  /** `s.split(sep)` yields one more piece than there are separators. */
  lemma {:induction false} SplitLength(s: string, sep: string)
    requires sep != []
    ensures |Split(s, sep)| == Count(s, sep) + 1
    decreases |s|
  {
    if |s| < |sep| {
    } else if s[..|sep|] == sep {
      SplitLength(s[|sep|..], sep);
    } else {
      SplitLength(s[1..], sep);
    }
  }

  lemma JoinConsFirst(c: char, parts: seq<string>, sep: string)
    requires |parts| >= 1
    ensures Join([[c] + parts[0]] + parts[1..], sep) == [c] + Join(parts, sep)
  {
    var q := [[c] + parts[0]] + parts[1..];
    assert q[1..] == parts[1..];
  }

  /** Joining the pieces of `s.split(sep)` with `sep` gives back `s`. */
  lemma {:induction false} SplitJoin(s: string, sep: string)
    requires sep != []
    ensures Join(Split(s, sep), sep) == s
    decreases |s|
  {
    if |s| < |sep| {
    } else if s[..|sep|] == sep {
      SplitJoin(s[|sep|..], sep);
      assert s == sep + s[|sep|..];
    } else {
      var rest := Split(s[1..], sep);
      SplitJoin(s[1..], sep);
      JoinConsFirst(s[0], rest, sep);
      assert s == [s[0]] + s[1..];
    }
  }

  /** The first piece of `s.split(sep)` is a prefix of `s`. */
  lemma {:induction false} SplitFirstIsPrefix(s: string, sep: string)
    requires sep != []
    ensures Split(s, sep)[0] <= s
    decreases |s|
  {
    if |s| < |sep| {
    } else if s[..|sep|] == sep {
    } else {
      SplitFirstIsPrefix(s[1..], sep);
    }
  }

  lemma {:induction false} OccursCons(c: char, s: string, t: string)
    requires t != [] && !Occurs(s, t)
    requires |[c] + s| < |t| || ([c] + s)[..|t|] != t
    ensures !Occurs([c] + s, t)
  {
    assert ([c] + s)[1..] == s;
  }

  /** No piece of `s.split(sep)` contains `sep`: the split is at every occurrence. */
  lemma {:induction false} SplitPiecesFree(s: string, sep: string)
    requires sep != []
    ensures forall k :: 0 <= k < |Split(s, sep)| ==> !Occurs(Split(s, sep)[k], sep)
    decreases |s|
  {
    var parts := Split(s, sep);
    if |s| < |sep| {
      assert !Occurs(s, sep);
    } else if s[..|sep|] == sep {
      SplitPiecesFree(s[|sep|..], sep);
      assert !Occurs("", sep);
      assert parts[1..] == Split(s[|sep|..], sep);
      forall k | 1 <= k < |parts| ensures !Occurs(parts[k], sep) {
        assert parts[k] == Split(s[|sep|..], sep)[k - 1];
      }
    } else {
      var rest := Split(s[1..], sep);
      SplitPiecesFree(s[1..], sep);
      SplitFirstIsPrefix(s[1..], sep);
      var first := [s[0]] + rest[0];
      assert first <= s;
      if |first| >= |sep| {
        assert first[..|sep|] == s[..|sep|];
      }
      OccursCons(s[0], rest[0], sep);
      forall k | 1 <= k < |parts| ensures !Occurs(parts[k], sep) {
        assert parts[k] == rest[k];
      }
    }
  }

  /** A string without the one-character separator is its own single piece. */
  lemma {:induction false} SplitWithoutSeparator(s: string, c: char)
    requires c !in s
    ensures Split(s, [c]) == [s]
    decreases |s|
  {
    if |s| >= 1 {
      assert s[..1] == [s[0]];
      SplitWithoutSeparator(s[1..], c);
      assert s == [s[0]] + s[1..];
    }
  }

  /** Appending a separator and a piece free of it adds that piece to the split. */
  lemma {:induction false} SplitAppendPiece(s: string, c: char, f: string)
    requires c !in f
    ensures Split(s + [c] + f, [c]) == Split(s, [c]) + [f]
    decreases |s|
  {
    var t := s + [c] + f;
    assert t[..1] == [t[0]];
    if s == [] {
      assert t == [c] + f && t[1..] == f;
      SplitWithoutSeparator(f, c);
    } else {
      assert s[..1] == [s[0]];
      assert t[1..] == s[1..] + [c] + f;
      SplitAppendPiece(s[1..], c, f);
      if s[0] != c {
        var rest := Split(s[1..], [c]);
        assert Split(t[1..], [c]) == rest + [f];
        assert (rest + [f])[0] == rest[0] && (rest + [f])[1..] == rest[1..] + [f];
      }
    }
  }

  /** `s.split(c, 1)`: the text before the first `c`, and the text after it when there is
      one (see `SplitOnceParts`). */
  function SplitOnce(s: string, c: char): (string, Option<string>) {
    if s == [] then ("", None)
    else if s[0] == c then ("", Some(s[1..]))
    else
      var rest := SplitOnce(s[1..], c);
      ([s[0]] + rest.0, rest.1)
  }

  /** The head of `s.split(c, 1)` holds no `c`; there is a tail exactly when `s` holds a
      `c`, and head, `c` and tail give back `s`; without a tail the head is all of `s`. */
  lemma {:induction false} SplitOnceParts(s: string, c: char)
    ensures var r := SplitOnce(s, c);
      && c !in r.0
      && (r.1.None? <==> c !in s)
      && (r.1.None? ==> r.0 == s)
      && (r.1.Some? ==> r.0 + [c] + r.1.value == s)
    decreases |s|
  {
    if s != [] && s[0] != c {
      SplitOnceParts(s[1..], c);
      assert s == [s[0]] + s[1..];
    } else if s != [] {
      assert s == [c] + s[1..];
    }
  }
}
