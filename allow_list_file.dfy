/**
 * The content of one allow-list file: the elements of a set of strings in
 * ascending code-point order, each followed by one newline.
 */
module AllowListFile {
  import opened CodePointOrder

  /** `m` is the smallest element of `s`. */
  predicate IsLeast(m: string, s: set<string>) {
    m in s && forall y :: y in s ==> !Less(y, m)
  }

  lemma {:induction false} LeastExists(s: set<string>)
    requires s != {}
    ensures exists m :: IsLeast(m, s)
    decreases |s|
  {
    var x :| x in s;
    if s == {x} {
      LessIrreflexive(x);
      assert IsLeast(x, s);
    } else {
      LeastExists(s - {x});
      var m :| IsLeast(m, s - {x});
      if Less(x, m) {
        forall y | y in s
          ensures !Less(y, x)
        {
          LessIrreflexive(x);
          LessTransitive(y, x, m);
        }
        assert IsLeast(x, s);
      } else {
        assert IsLeast(m, s);
      }
    }
  }

  lemma LeastUnique(m: string, n: string, s: set<string>)
    requires IsLeast(m, s) && IsLeast(n, s)
    ensures m == n
  {
    LessTrichotomy(m, n);
  }

  ghost function Least(s: set<string>): (m: string)
    requires s != {}
    ensures IsLeast(m, s)
  {
    LeastExists(s);
    var m :| IsLeast(m, s);
    m
  }

  /** The elements of `s` as a list in ascending code-point order. */
  ghost function Sorted(s: set<string>): seq<string>
    decreases |s|
  {
    if s == {} then []
    else
      var m := Least(s);
      [m] + Sorted(s - {m})
  }

  ghost predicate StrictlyAscending(xs: seq<string>) {
    forall i, j :: 0 <= i < j < |xs| ==> Less(xs[i], xs[j])
  }

  /** `Sorted(s)` lists every element of `s` exactly once, in strictly ascending order. */
  lemma {:induction false} SortedIsAscendingListing(s: set<string>)
    ensures StrictlyAscending(Sorted(s))
    ensures |Sorted(s)| == |s|
    ensures forall x :: x in Sorted(s) <==> x in s
    decreases |s|
  {
    if s != {} {
      var m := Least(s);
      var rest := Sorted(s - {m});
      SortedIsAscendingListing(s - {m});
      forall j | 0 <= j < |rest|
        ensures Less(m, rest[j])
      {
        LessTrichotomy(m, rest[j]);
      }
      var xs := [m] + rest;
      assert xs == Sorted(s);
      forall i, j | 0 <= i < j < |xs|
        ensures Less(xs[i], xs[j])
      {
        if i > 0 {
          assert xs[i] == rest[i - 1] && xs[j] == rest[j - 1];
        } else {
          assert xs[j] == rest[j - 1];
        }
      }
    }
  }

  /** Conversely, a strictly ascending listing of `s` is `Sorted(s)`: the listing is unique. */
  lemma {:induction false} AscendingListingIsSorted(xs: seq<string>, s: set<string>)
    requires StrictlyAscending(xs)
    requires forall x :: x in xs <==> x in s
    ensures xs == Sorted(s)
    decreases |xs|
  {
    if xs == [] {
      assert forall x :: x !in s;
      assert s == {};
    } else {
      var m := xs[0];
      forall y | y in s
        ensures !Less(y, m)
      {
        var k :| 0 <= k < |xs| && xs[k] == y;
        LessIrreflexive(m);
        LessAsymmetric(m, y);
      }
      assert IsLeast(m, s);
      LeastUnique(m, Least(s), s);
      LessIrreflexive(m);
      assert m !in xs[1..];
      forall x
        ensures x in xs[1..] <==> x in s - {m}
      {
        if x in xs && x != m {
          var k :| 0 <= k < |xs| && xs[k] == x;
          assert xs[k] == xs[1..][k - 1];
        }
      }
      AscendingListingIsSorted(xs[1..], s - {m});
      assert xs == [m] + xs[1..];
    }
  }

  /** Each element followed by a newline, in the order given. */
  function Lines(xs: seq<string>): string {
    if xs == [] then "" else xs[0] + "\n" + Lines(xs[1..])
  }

  /** Every line is terminated: content with at least one line ends in a newline. */
  lemma {:induction false} LinesEndInNewline(xs: seq<string>)
    requires xs != []
    ensures |Lines(xs)| > 0 && Lines(xs)[|Lines(xs)| - 1] == '\n'
    decreases |xs|
  {
    var tail := Lines(xs[1..]);
    assert Lines(xs) == xs[0] + "\n" + tail;
    if xs[1..] != [] {
      LinesEndInNewline(xs[1..]);
    }
  }

  /** The content of the allow-list file written for `s`. */
  ghost function Rendered(s: set<string>): string {
    Lines(Sorted(s))
  }

  /** Position of the first newline of `c`, or `|c|` when it has none. */
  function NewlineIndex(c: string): (k: nat)
    ensures k <= |c|
    ensures k < |c| ==> c[k] == '\n'
    ensures '\n' !in c[..k]
  {
    if c == "" || c[0] == '\n' then 0
    else
      var k := 1 + NewlineIndex(c[1..]);
      assert c[..k] == [c[0]] + c[1..][..k - 1];
      k
  }

  /** How a line-oriented reader (the proxy) reads a file: the lines, without their newlines. */
  function SplitLines(c: string): seq<string>
    decreases |c|
  {
    if c == "" then []
    else
      var k := NewlineIndex(c);
      if k == |c| then [c] else [c[..k]] + SplitLines(c[k + 1..])
  }

  lemma {:induction false} NewlineIndexAfter(x: string, rest: string)
    requires '\n' !in x
    ensures NewlineIndex(x + "\n" + rest) == |x|
    decreases |x|
  {
    var c := x + "\n" + rest;
    if x != [] {
      assert c[1..] == x[1..] + "\n" + rest;
      NewlineIndexAfter(x[1..], rest);
    }
  }

  /** Reading the lines back gives exactly the listing that was written. */
  lemma {:induction false} SplitLinesInvertsLines(xs: seq<string>)
    requires forall i :: 0 <= i < |xs| ==> '\n' !in xs[i]
    ensures SplitLines(Lines(xs)) == xs
    decreases |xs|
  {
    if xs != [] {
      var c := Lines(xs);
      var tail := Lines(xs[1..]);
      assert c == xs[0] + "\n" + tail;
      NewlineIndexAfter(xs[0], tail);
      assert c[..|xs[0]|] == xs[0];
      assert c[|xs[0]| + 1..] == tail;
      SplitLinesInvertsLines(xs[1..]);
      assert xs == [xs[0]] + xs[1..];
    }
  }

  /**
   * The file written for `s` holds one line per element of `s`, in strictly ascending
   * order with no repeats; an empty set gives an empty file, and any other set a file
   * that ends in a newline.
   */
  lemma RenderedLinesAreSortedSet(s: set<string>)
    requires forall x :: x in s ==> '\n' !in x
    ensures SplitLines(Rendered(s)) == Sorted(s)
    ensures |SplitLines(Rendered(s))| == |s|
    ensures StrictlyAscending(SplitLines(Rendered(s)))
    ensures forall x :: x in SplitLines(Rendered(s)) <==> x in s
    ensures Rendered(s) == "" <==> s == {}
    ensures s != {} ==> Rendered(s)[|Rendered(s)| - 1] == '\n'
  {
    SortedIsAscendingListing(s);
    SplitLinesInvertsLines(Sorted(s));
    if s != {} {
      var xs := Sorted(s);
      assert xs[0] in s;
      LinesEndInNewline(xs);
    }
  }

  /** Writes the allow-list content for `s`, one element per line in ascending order. */
  method Render(s: set<string>) returns (content: string)
    ensures content == Rendered(s)
  {
    content := "";
    var remaining := s;
    while remaining != {}
      invariant content + Lines(Sorted(remaining)) == Lines(Sorted(s))
      decreases |remaining|
    {
      LeastExists(remaining);
      var m :| IsLeast(m, remaining);
      LeastUnique(m, Least(remaining), remaining);
      assert Sorted(remaining) == [m] + Sorted(remaining - {m});
      content := content + m + "\n";
      remaining := remaining - {m};
    }
  }

  /** Two domains are written in code-point order: '.' comes before 'a'. */
  lemma RenderTwoDomains()
    ensures Rendered({"a.com", ".b.com"}) == ".b.com\na.com\n"
  {
    var x: string, y: string := ".b.com", "a.com";
    TwoDomainsSorted(x, y);
    assert [x, y][1..] == [y];
  }

  lemma TwoDomainsSorted(x: string, y: string)
    requires x == ".b.com" && y == "a.com"
    ensures Sorted({y, x}) == [x, y]
  {
    assert x[0] == '.' && y[0] == 'a';
    assert Less(x, y);
    assert StrictlyAscending([x, y]);
    AscendingListingIsSorted([x, y], {y, x});
  }

  lemma RenderOneRange()
    ensures Rendered({"10.0.0.0/24"}) == "10.0.0.0/24\n"
  {
    AscendingListingIsSorted(["10.0.0.0/24"], {"10.0.0.0/24"});
  }
}
