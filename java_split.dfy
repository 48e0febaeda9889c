/** Java's `String.split` with no limit, for a one-character pattern that is
    not a regular-expression metacharacter (the scanner uses `':'`): the
    string is cut at every separator, then trailing empty pieces are dropped;
    a string with no separator at all comes back whole, even when empty.
    Java reads the pattern as a regular expression, so for `.`, `$`, `|`,
    `(`, `)`, `[`, `{`, `^`, `?`, `*`, `+` and `\` it does something else;
    `Split` excludes those. */
module JavaStrings {

  /** A one-character pattern that Java's `split` matches literally. */
  predicate PlainSeparator(sep: char)
  {
    sep !in ".$|()[{^?*+\\"
  }

  /** Every character of `s` is `sep` (true of the empty string). */
  predicate AllSeparators(s: string, sep: char)
  {
    forall i :: 0 <= i < |s| ==> s[i] == sep
  }

  /** The position of the first `c` in `s`. */
  function IndexOf(s: string, c: char): (i: nat)
    requires c in s
    ensures i < |s| && s[i] == c && c !in s[..i]
  {
    if s[0] == c then 0
    else
      assert s == [s[0]] + s[1..];
      var j := IndexOf(s[1..], c);
      assert s[..1 + j] == [s[0]] + s[1..][..j];
      1 + j
  }

  /** The text between consecutive separators, empty pieces included. */
  function Pieces(s: string, sep: char): (r: seq<string>)
    ensures |r| >= 1
    decreases |s|
  {
    if sep in s then
      var i := IndexOf(s, sep);
      [s[..i]] + Pieces(s[i + 1..], sep)
    else
      [s]
  }

  /** The pieces written back with the separator between them. */
  function Join(p: seq<string>, sep: char): string
    requires |p| >= 1
  {
    if |p| == 1 then p[0] else p[0] + [sep] + Join(p[1..], sep)
  }

  /** Java drops the empty pieces at the end of the list. */
  function DropTrailingEmpty(p: seq<string>): (r: seq<string>)
    ensures |r| <= |p| && r == p[..|r|]
    ensures forall k :: |r| <= k < |p| ==> p[k] == ""
    ensures r == [] || r[|r| - 1] != ""
  {
    if p == [] || p[|p| - 1] != "" then p else DropTrailingEmpty(p[..|p| - 1])
  }

  /** `s.split(sep)` in Java, for a plain one-character pattern. */
  function Split(s: string, sep: char): (r: seq<string>)
    requires PlainSeparator(sep)
    ensures |r| <= |Pieces(s, sep)| && r == Pieces(s, sep)[..|r|]
    ensures forall k :: |r| <= k < |Pieces(s, sep)| ==> Pieces(s, sep)[k] == ""
    ensures r == [] || r[|r| - 1] != "" || s == ""
    ensures s == "" ==> r == [""]
    ensures r == [] <==> s != "" && AllSeparators(s, sep)
  {
    AllEmptyPieces(s, sep);
    if sep !in s then [s] else DropTrailingEmpty(Pieces(s, sep))
  }

  /** Java keeps every piece up to the last non-empty one. */
  lemma SplitKeeps(s: string, sep: char, k: nat)
    requires PlainSeparator(sep)
    requires k < |Pieces(s, sep)| && Pieces(s, sep)[k] != ""
    ensures k < |Split(s, sep)| && Split(s, sep)[..k + 1] == Pieces(s, sep)[..k + 1]
  {
  }

  /** The first separator of `a + [sep] + t` is the one after `a` when `a` holds none. */
  lemma IndexOfAfter(a: string, sep: char, t: string)
    requires sep !in a
    ensures sep in a + [sep] + t && IndexOf(a + [sep] + t, sep) == |a|
  {
    var s := a + [sep] + t;
    assert s[|a|] == sep;
    assert s[..|a|] == a;
  }

  /** Cutting `a + [sep] + t` gives `a` followed by the pieces of `t`. */
  lemma PiecesAfter(a: string, sep: char, t: string)
    requires sep !in a
    ensures Pieces(a + [sep] + t, sep) == [a] + Pieces(t, sep)
  {
    var s := a + [sep] + t;
    IndexOfAfter(a, sep, t);
    assert s[..|a|] == a;
    assert s[|a| + 1..] == t;
  }

  /** The pieces are all empty exactly when the string is nothing but separators. */
  lemma {:induction false} AllEmptyPieces(s: string, sep: char)
    ensures (forall k :: 0 <= k < |Pieces(s, sep)| ==> Pieces(s, sep)[k] == "")
            <==> AllSeparators(s, sep)
    decreases |s|
  {
    var p := Pieces(s, sep);
    if sep in s {
      var i := IndexOf(s, sep);
      var t := s[i + 1..];
      AllEmptyPieces(t, sep);
      assert p == [s[..i]] + Pieces(t, sep);
      if AllSeparators(s, sep) {
        assert s[0] == sep;
        assert i == 0;
        assert AllSeparators(t, sep) by {
          forall j | 0 <= j < |t| ensures t[j] == sep { assert t[j] == s[i + 1 + j]; }
        }
        forall k | 0 <= k < |p| ensures p[k] == "" {
          if k > 0 { assert p[k] == Pieces(t, sep)[k - 1]; }
        }
      }
      if forall k :: 0 <= k < |p| ==> p[k] == "" {
        assert p[0] == s[..i];
        assert i == 0;
        assert forall k :: 0 <= k < |Pieces(t, sep)| ==> Pieces(t, sep)[k] == p[k + 1];
        assert s == [sep] + t;
      }
    } else {
      assert p == [s];
      if s != "" {
        assert s[0] != sep;
        assert Pieces(s, sep)[0] == s && s != "";
      }
    }
  }

  /** Joining the pieces gives back the string, and no piece holds a separator. */
  lemma {:induction false} JoinPieces(s: string, sep: char)
    ensures Join(Pieces(s, sep), sep) == s
    ensures forall k :: 0 <= k < |Pieces(s, sep)| ==> sep !in Pieces(s, sep)[k]
    decreases |s|
  {
    if sep in s {
      var i := IndexOf(s, sep);
      var t := s[i + 1..];
      JoinPieces(t, sep);
      var p := Pieces(s, sep);
      assert p == [s[..i]] + Pieces(t, sep);
      assert p[1..] == Pieces(t, sep);
      assert s == s[..i] + [sep] + t;
    }
  }

  /** Cutting a joined list of separator-free pieces gives the list back. */
  lemma {:induction false} PiecesJoin(p: seq<string>, sep: char)
    requires |p| >= 1
    requires forall k :: 0 <= k < |p| ==> sep !in p[k]
    ensures Pieces(Join(p, sep), sep) == p
    decreases |p|
  {
    if |p| == 1 {
      assert Join(p, sep) == p[0];
    } else {
      PiecesJoin(p[1..], sep);
      PiecesAfter(p[0], sep, Join(p[1..], sep));
      assert p == [p[0]] + p[1..];
    }
  }
}
