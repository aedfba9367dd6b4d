/** Splitting text at a separator. */
module Text {

  /** The position of the first separator, or the length. */
  function IndexOf(s: string, sep: char): (i: nat)
    ensures i <= |s| && sep !in s[..i] && (i < |s| ==> s[i] == sep)
  {
    if s == [] || s[0] == sep then 0
    else
      var i := 1 + IndexOf(s[1..], sep);
      assert s[..i] == [s[0]] + s[1..][..i - 1];
      i
  }

  /** At most `n` parts; the last one takes the rest, separators included. */
  function SplitN(s: string, sep: char, n: nat): (parts: seq<string>)
    requires n > 0
    ensures 1 <= |parts| <= n
  {
    var i := IndexOf(s, sep);
    if n == 1 || i == |s| then [s] else [s[..i]] + SplitN(s[i + 1..], sep, n - 1)
  }

  lemma {:induction false} IndexOfFirst(first: string, rest: string, sep: char)
    requires sep !in first
    ensures IndexOf(first + [sep] + rest, sep) == |first|
  {
    if first != [] {
      assert first[0] in first;
      assert (first + [sep] + rest)[1..] == first[1..] + [sep] + rest;
      IndexOfFirst(first[1..], rest, sep);
    }
  }

  lemma SplitFirst(first: string, rest: string, sep: char, n: nat)
    requires n > 1 && sep !in first
    ensures SplitN(first + [sep] + rest, sep, n) == [first] + SplitN(rest, sep, n - 1)
  {
    var s := first + [sep] + rest;
    IndexOfFirst(first, rest, sep);
    assert s[..|first|] == first && s[|first| + 1..] == rest;
  }

  lemma SplitNothing(s: string, sep: char, n: nat)
    requires n > 0 && sep !in s
    ensures SplitN(s, sep, n) == [s]
  {
  }

  lemma SplitThree(a: string, b: string, c: string, sep: char)
    requires sep !in a && sep !in b && sep !in c
    ensures SplitN(a + [sep] + (b + [sep] + c), sep, 4) == [a, b, c]
  {
    SplitFirst(a, b + [sep] + c, sep, 4);
    SplitFirst(b, c, sep, 3);
    SplitNothing(c, sep, 2);
  }

  lemma SplitTwo(a: string, rest: string, sep: char)
    requires sep !in a
    ensures SplitN(a + [sep] + rest, sep, 2) == [a, rest]
  {
    SplitFirst(a, rest, sep, 2);
    assert SplitN(rest, sep, 1) == [rest];
  }

  lemma SplitFour(a: string, b: string, c: string, rest: string, sep: char)
    requires sep !in a && sep !in b && sep !in c
    ensures SplitN(a + [sep] + (b + [sep] + (c + [sep] + rest)), sep, 4) == [a, b, c, rest]
  {
    var x := c + [sep] + rest;
    var y := b + [sep] + x;
    assert SplitN(x, sep, 2) == [c, rest] by { SplitTwo(c, rest, sep); }
    assert SplitN(y, sep, 3) == [b] + SplitN(x, sep, 2) by { SplitFirst(b, x, sep, 3); }
    assert SplitN(a + [sep] + y, sep, 4) == [a] + SplitN(y, sep, 3) by { SplitFirst(a, y, sep, 4); }
  }

  // ----- splitting completely -----

  function Split(s: string, sep: char): seq<string> {
    SplitN(s, sep, |s| + 1)
  }

  lemma {:induction false} EnoughParts(s: string, sep: char, n: nat, m: nat)
    requires n > |s| && m > |s|
    ensures SplitN(s, sep, n) == SplitN(s, sep, m)
    decreases |s|
  {
    var i := IndexOf(s, sep);
    if i < |s| { EnoughParts(s[i + 1..], sep, n - 1, m - 1); }
  }

  function Join(parts: seq<string>, sep: char): string {
    if parts == [] then ""
    else if |parts| == 1 then parts[0]
    else parts[0] + [sep] + Join(parts[1..], sep)
  }

  lemma JoinMore(first: string, rest: seq<string>, sep: char)
    ensures Join([first] + rest, sep) == if rest == [] then first else first + [sep] + Join(rest, sep)
  {
    assert ([first] + rest)[1..] == rest;
  }

  /** Splitting undoes joining when no part contains the separator. */
  lemma {:induction false} SplitJoin(parts: seq<string>, sep: char)
    requires parts != [] && forall i | 0 <= i < |parts| :: sep !in parts[i]
    ensures Split(Join(parts, sep), sep) == parts
  {
    if |parts| == 1 {
      SplitNothing(parts[0], sep, |parts[0]| + 1);
    } else {
      var rest := Join(parts[1..], sep);
      var all := parts[0] + [sep] + rest;
      SplitJoin(parts[1..], sep);
      SplitFirst(parts[0], rest, sep, |all| + 1);
      EnoughParts(rest, sep, |all|, |rest| + 1);
    }
  }

  /** A split finds a separator if and only if there is one. */
  lemma PartsCount(s: string, sep: char)
    ensures |Split(s, sep)| >= 2 <==> sep in s
  {
  }
}
