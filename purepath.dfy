/** The parts of `pathlib.PurePosixPath` the report naming uses: `name`, `suffix` and `stem`. */
module PurePath {
  import opened PyStr

  /** `s.rfind(c)`: the last index holding `c`, or -1. */
  function LastIndexOf(s: string, c: char): (i: int)
    ensures -1 <= i < |s|
    ensures i >= 0 ==> s[i] == c
    ensures forall k :: i < k < |s| ==> s[k] != c
  {
    if s == [] then -1
    else if s[|s| - 1] == c then |s| - 1
    else LastIndexOf(s[..|s| - 1], c)
  }

  /** The components pathlib keeps from `/`-separated pieces: empty pieces (repeated or
      outer slashes) and `.` pieces are dropped, `..` is kept. */
  function Components(pieces: seq<string>): (r: seq<string>)
    ensures forall k :: 0 <= k < |r| ==> r[k] != "" && r[k] != "." && r[k] in pieces
  {
    if pieces == [] then []
    else
      var rest := Components(pieces[1..]);
      if pieces[0] == "" || pieces[0] == "." then rest else [pieces[0]] + rest
  }

  /** Components are taken piece by piece, in order: a piece is kept unless it is empty or
      `.`, and the components of joined piece lists are joined. */
  lemma {:induction false} ComponentsPieces(a: seq<string>, b: seq<string>, p: string)
    ensures Components(a + b) == Components(a) + Components(b)
    ensures Components([p]) == if p == "" || p == "." then [] else [p]
    decreases |a|
  {
    if a == [] {
      assert a + b == b;
    } else {
      ComponentsPieces(a[1..], b, p);
      assert (a + b)[1..] == a[1..] + b;
    }
    assert [p][1..] == [];
  }

  /** `Path(p).name`: the last component, or the empty string for a path without one. */
  function Name(p: string): string {
    var parts := Components(Split(p, "/"));
    if parts == [] then "" else parts[|parts| - 1]
  }

  /** Where the last suffix of `name` starts, or `|name|` when it has none: the last `.`
      counts only when it is neither the first nor the last character. */
  function SuffixStart(name: string): (i: nat)
    ensures i <= |name|
  {
    var i := LastIndexOf(name, '.');
    if 0 < i < |name| - 1 then i else |name|
  }

  /** `Path(...).suffix` of a path whose name is `name`. */
  function Suffix(name: string): string {
    name[SuffixStart(name)..]
  }

  /** `Path(...).stem` of a path whose name is `name`. */
  function Stem(name: string): string {
    name[..SuffixStart(name)]
  }

  /** A path's name holds no separator and is neither empty (when there is a component)
      nor `.`. */
  lemma NameIsComponent(p: string)
    ensures '/' !in Name(p)
    ensures Name(p) != "."
  {
    var pieces := Split(p, "/");
    var parts := Components(pieces);
    if parts != [] {
      var last := parts[|parts| - 1];
      SplitPiecesFree(p, "/");
      var k :| 0 <= k < |pieces| && pieces[k] == last;
      assert !Occurs(last, "/");
      NoOccurrenceOfChar(last, '/');
    }
  }

  lemma {:induction false} NoOccurrenceOfChar(s: string, c: char)
    requires !Occurs(s, [c])
    ensures c !in s
    decreases |s|
  {
    if s != [] {
      assert s[..1] == [s[0]];
      NoOccurrenceOfChar(s[1..], c);
      assert s == [s[0]] + s[1..];
    }
  }

  /** The stem and the suffix split the name: the suffix is empty or a dot followed by at
      least one character and no further dot, and a non-empty name has a non-empty stem. */
  lemma StemSuffixSplit(name: string)
    ensures Stem(name) + Suffix(name) == name
    ensures Suffix(name) == [] || (|Suffix(name)| >= 2 && Suffix(name)[0] == '.' && '.' !in Suffix(name)[1..])
    ensures name != [] ==> Stem(name) != []
    ensures Suffix(name) == [] ==> Stem(name) == name
  {
  }

  /** A name made of a non-empty stem and a dot-led extension without further dots has
      exactly that stem and suffix. */
  lemma SuffixOfDotted(stem: string, ext: string)
    requires stem != [] && |ext| >= 2 && ext[0] == '.' && '.' !in ext[1..]
    ensures Suffix(stem + ext) == ext && Stem(stem + ext) == stem
  {
    var name := stem + ext;
    var i := LastIndexOf(name, '.');
    assert name[|stem|] == '.';
    forall k | |stem| < k < |name| ensures name[k] != '.' {
      assert name[k] == ext[1..][k - |stem| - 1];
    }
    assert i == |stem|;
  }

  /** A name whose only dot is its first character (a hidden file such as `.bashrc`)
      has no suffix: its stem is the whole name. */
  lemma DotFileHasNoSuffix(name: string)
    requires |name| > 0 && name[0] == '.' && '.' !in name[1..]
    ensures Suffix(name) == [] && Stem(name) == name
  {
    var i := LastIndexOf(name, '.');
    forall k | 0 < k < |name| ensures name[k] != '.' {
      assert name[k] == name[1..][k - 1];
    }
    assert i == 0;
  }

  lemma {:induction false} ComponentsAppend(pieces: seq<string>, f: string)
    requires f != "" && f != "."
    ensures Components(pieces + [f]) == Components(pieces) + [f]
    decreases |pieces|
  {
    if pieces == [] {
      assert ([] + [f])[1..] == [];
    } else {
      assert (pieces + [f])[1..] == pieces[1..] + [f];
      ComponentsAppend(pieces[1..], f);
    }
  }

  /** The name of `Path(dir) / f`, for an entry name `f` as a directory listing returns
      it, is `f` itself. */
  lemma NameOfChild(dir: string, f: string)
    requires '/' !in f && f != "" && f != "."
    ensures Name(dir + "/" + f) == f
  {
    SplitAppendPiece(dir, '/', f);
    ComponentsAppend(Split(dir, "/"), f);
  }
}
