/** File names and paths: POSIX path joining, suffix tests, and the ordering and
    sorting of the rendered-image listing. Strings compare code point by code point,
    as Python's `str` does. */
module Paths {

  predicate EndsWith(s: string, suffix: string) {
    |suffix| <= |s| && s[|s| - |suffix|..] == suffix
  }

  /** Two-argument `os.path.join` on POSIX: an absolute second part replaces the
      base; otherwise a separator is inserted unless the base is empty or already
      ends with one. */
  function Join(base: string, p: string): (r: string)
    ensures EndsWith(r, p)
    ensures |p| > 0 && p[0] == '/' ==> r == p
    ensures !(|p| > 0 && p[0] == '/') ==> |base| <= |r| && r[..|base|] == base
  {
    if |p| > 0 && p[0] == '/' then p
    else if base == [] || base[|base| - 1] == '/' then base + p
    else base + "/" + p
  }

  /** Appending a suffix always gives a string that ends with it. */
  lemma EndsWithConcat(stem: string, suffix: string)
    ensures EndsWith(stem + suffix, suffix)
  {
    assert (stem + suffix)[|stem|..] == suffix;
  }

  /** A string ending with `suffix` is its stem followed by `suffix`. */
  lemma EndsWithSplit(s: string, suffix: string)
    requires EndsWith(s, suffix)
    ensures s == s[..|s| - |suffix|] + suffix
  {
  }

  /** `file.endswith(".png")`. */
  predicate IsPng(name: string) {
    EndsWith(name, ".png")
  }

  /** `a` is `b` with some elements dropped, the rest kept in order. */
  predicate Subsequence<T(==)>(a: seq<T>, b: seq<T>) {
    a == [] || (b != [] && (if a[0] == b[0] then Subsequence(a[1..], b[1..]) else Subsequence(a, b[1..])))
  }

  /** `filter(lambda file: file.endswith(".png"), names)`: the names ending in
      ".png", each as often as in the listing, in listing order, and nothing else. */
  function FilterPng(names: seq<string>): (r: seq<string>)
    ensures forall x :: multiset(r)[x] == if IsPng(x) then multiset(names)[x] else 0
    ensures forall i :: 0 <= i < |r| ==> IsPng(r[i])
  {
    if names == [] then []
    else
      assert names == [names[0]] + names[1..];
      var rest := FilterPng(names[1..]);
      var r := (if IsPng(names[0]) then [names[0]] else []) + rest;
      assert forall i :: 0 <= i < |r| ==> r[i] in multiset(r);
      r
  }
  /** The filter keeps the surviving names in listing order. */
  lemma {:induction false} FilterPngKeepsOrder(names: seq<string>)
    ensures Subsequence(FilterPng(names), names)
  {
    if names != [] {
      FilterPngKeepsOrder(names[1..]);
      var rest := FilterPng(names[1..]);
      if IsPng(names[0]) {
        var r := [names[0]] + rest;
        assert FilterPng(names) == r && r[0] == names[0] && r[1..] == rest;
      } else {
        assert FilterPng(names) == rest;
        if rest != [] {
          assert IsPng(rest[0]) && rest[0] != names[0];
        }
      }
    }
  }


  /** Python's `<=` on strings: lexicographic, with a proper prefix before its extensions. */
  predicate LexLe(a: string, b: string) {
    a == [] || (b != [] && (if a[0] == b[0] then LexLe(a[1..], b[1..]) else a[0] < b[0]))
  }

  lemma {:induction false} LexLeReflexive(a: string)
    ensures LexLe(a, a)
  {
    if a != [] { LexLeReflexive(a[1..]); }
  }

  lemma {:induction false} LexLeAntisymmetric(a: string, b: string)
    requires LexLe(a, b) && LexLe(b, a)
    ensures a == b
  {
    if a != [] {
      LexLeAntisymmetric(a[1..], b[1..]);
      assert a == [a[0]] + a[1..] && b == [b[0]] + b[1..];
    }
  }

  lemma {:induction false} LexLeTransitive(a: string, b: string, c: string)
    requires LexLe(a, b) && LexLe(b, c)
    ensures LexLe(a, c)
  {
    if a != [] && a[0] == b[0] && b[0] == c[0] {
      LexLeTransitive(a[1..], b[1..], c[1..]);
    }
  }

  lemma {:induction false} LexLeTotal(a: string, b: string)
    ensures LexLe(a, b) || LexLe(b, a)
  {
    if a != [] && b != [] && a[0] == b[0] {
      LexLeTotal(a[1..], b[1..]);
    }
  }

  predicate Sorted(s: seq<string>) {
    forall i, j :: 0 <= i < j < |s| ==> LexLe(s[i], s[j])
  }

  /** Places `x` before the first element it does not exceed. */
  function Insert(x: string, s: seq<string>): seq<string> {
    if s == [] then [x]
    else if LexLe(x, s[0]) then [x] + s
    else [s[0]] + Insert(x, s[1..])
  }

  lemma {:induction false} InsertPermutes(x: string, s: seq<string>)
    ensures multiset(Insert(x, s)) == multiset(s) + multiset{x}
  {
    if s != [] && !LexLe(x, s[0]) {
      InsertPermutes(x, s[1..]);
      assert s == [s[0]] + s[1..];
    }
  }

  lemma {:induction false} InsertSorted(x: string, s: seq<string>)
    requires Sorted(s)
    ensures Sorted(Insert(x, s))
  {
    if s == [] {
    } else if LexLe(x, s[0]) {
      forall j | 0 <= j < |s| ensures LexLe(x, s[j]) {
        if j > 0 { LexLeTransitive(x, s[0], s[j]); }
      }
    } else {
      var t := Insert(x, s[1..]);
      InsertSorted(x, s[1..]);
      InsertPermutes(x, s[1..]);
      LexLeTotal(x, s[0]);
      forall k | 0 <= k < |t| ensures LexLe(s[0], t[k]) {
        assert t[k] in multiset(t);
        if t[k] != x {
          assert t[k] in multiset(s[1..]);
          var j :| 0 <= j < |s[1..]| && s[1..][j] == t[k];
          assert s[j + 1] == t[k];
        }
      }
    }
  }

  /** The result of `list.sort()` on a list of strings: ascending, and a
      permutation of its input. */
  function SortStrings(s: seq<string>): (r: seq<string>)
    ensures Sorted(r)
    ensures multiset(r) == multiset(s)
  {
    if s == [] then []
    else
      var t := SortStrings(s[1..]);
      InsertSorted(s[0], t);
      InsertPermutes(s[0], t);
      assert s == [s[0]] + s[1..];
      Insert(s[0], t)
  }

  /** The first element of an ascending sequence is at most every element of it. */
  lemma HeadIsLeast(s: seq<string>, x: string)
    requires Sorted(s) && x in multiset(s)
    ensures s != [] && LexLe(s[0], x)
  {
    var j :| 0 <= j < |s| && s[j] == x;
    if j == 0 { LexLeReflexive(x); }
  }

  lemma TailSorted(s: seq<string>)
    requires Sorted(s) && s != []
    ensures Sorted(s[1..])
  {
    forall i, j | 0 <= i < j < |s| - 1 ensures LexLe(s[1..][i], s[1..][j]) {
      assert s[1..][i] == s[i + 1] && s[1..][j] == s[j + 1];
    }
  }

  /** Two ascending orderings of the same names coincide, so the model of
      `list.sort()` does not depend on the sorting algorithm. */
  lemma {:induction false} SortedUnique(a: seq<string>, b: seq<string>)
    requires Sorted(a) && Sorted(b)
    requires multiset(a) == multiset(b)
    ensures a == b
  {
    if a == [] {
      assert |multiset(b)| == 0;
    } else {
      assert a[0] in multiset(a);
      HeadIsLeast(b, a[0]);
      assert b[0] in multiset(b);
      HeadIsLeast(a, b[0]);
      LexLeAntisymmetric(a[0], b[0]);
      assert a == [a[0]] + a[1..];
      assert b == [b[0]] + b[1..];
      assert multiset(a[1..]) == multiset(b[1..]) by {
        assert multiset(a) == multiset{a[0]} + multiset(a[1..]);
        assert multiset(b) == multiset{b[0]} + multiset(b[1..]);
        forall x ensures multiset(a[1..])[x] == multiset(b[1..])[x] {
          assert multiset(a)[x] == multiset{a[0]}[x] + multiset(a[1..])[x];
          assert multiset(b)[x] == multiset{b[0]}[x] + multiset(b[1..])[x];
        }
      }
      TailSorted(a);
      TailSorted(b);
      SortedUnique(a[1..], b[1..]);
    }
  }
}
