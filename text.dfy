/** The string operations of the Java library that the engine relies on: lower-casing,
    trimming, lexicographic comparison and sorting of string lists. */
module Text {

  /** The elements of a list, as a set. */
  function Elems<T>(s: seq<T>): set<T>
  {
    set x | x in s
  }

  /** `Character.toLowerCase` restricted to ASCII letters. */
  function LowerChar(c: char): char
  {
    if 'A' <= c <= 'Z' then (c as int + 32) as char else c
  }

  /** `String.toLowerCase`, ASCII letters only. */
  function Lower(s: string): (r: string)
    ensures |r| == |s| && IsLower(r)
  {
    seq(|s|, i requires 0 <= i < |s| => LowerChar(s[i]))
  }

  /** No upper-case ASCII letter occurs in `s`. */
  predicate IsLower(s: string)
  {
    forall i :: 0 <= i < |s| ==> !('A' <= s[i] <= 'Z')
  }

  /** Lower-casing a lower-case string changes nothing. */
  lemma LowerOfLower(s: string)
    requires IsLower(s)
    ensures Lower(s) == s
  {
  }

  /** `String.equalsIgnoreCase`, ASCII letters only. */
  predicate EqualsIgnoreCase(a: string, b: string)
  {
    Lower(a) == Lower(b)
  }

  /** A character that `String.trim` removes: any code point up to the space. */
  predicate IsBlank(c: char)
  {
    c <= ' '
  }

  function TrimStart(s: string): (r: string)
    ensures r == [] || !IsBlank(r[0])
  {
    if s != [] && IsBlank(s[0]) then TrimStart(s[1..]) else s
  }

  function TrimEnd(s: string): string
  {
    if s != [] && IsBlank(s[|s| - 1]) then TrimEnd(s[..|s| - 1]) else s
  }

  /** `String.trim`: drops the blank characters at both ends. */
  function Trim(s: string): (r: string)
    ensures r == [] || (!IsBlank(r[0]) && !IsBlank(r[|r| - 1]))
  {
    TrimEndKeepsStart(TrimStart(s));
    TrimEnd(TrimStart(s))
  }

  lemma TrimEndKeepsStart(s: string)
    requires s == [] || !IsBlank(s[0])
    ensures var r := TrimEnd(s); r == [] || (!IsBlank(r[0]) && !IsBlank(r[|r| - 1]))
  {
    if s != [] && IsBlank(s[|s| - 1]) {
      TrimEndKeepsStart(s[..|s| - 1]);
    }
  }

  /** `String.compareTo(a, b) < 0`: lexicographic order on characters, a proper prefix first. */
  predicate Less(a: string, b: string)
  {
    if a == [] then b != []
    else b != [] && (a[0] < b[0] || (a[0] == b[0] && Less(a[1..], b[1..])))
  }

  lemma LessIrreflexive(a: string)
    ensures !Less(a, a)
  {
    if a != [] {
      LessIrreflexive(a[1..]);
    }
  }

  lemma LessTransitive(a: string, b: string, c: string)
    requires Less(a, b) && Less(b, c)
    ensures Less(a, c)
  {
    if a != [] && b != [] && c != [] && a[0] == b[0] == c[0] {
      LessTransitive(a[1..], b[1..], c[1..]);
    }
  }

  /** Any two different strings are ordered one way, and not both ways. */
  lemma LessTotal(a: string, b: string)
    ensures a != b ==> Less(a, b) || Less(b, a)
    ensures !(Less(a, b) && Less(b, a))
  {
    if a != [] && b != [] && a[0] == b[0] {
      LessTotal(a[1..], b[1..]);
      if a[1..] == b[1..] {
        assert a == [a[0]] + a[1..];
        assert b == [b[0]] + b[1..];
      }
    }
  }

  /** Every element is smaller than every later one: sorted and free of duplicates. */
  ghost predicate StrictlySorted(s: seq<string>)
  {
    forall i, j :: 0 <= i < j < |s| ==> Less(s[i], s[j])
  }

  /** A strictly sorted list, with an element in front that is smaller than all of it. */
  lemma SortedCons(x: string, s: seq<string>)
    requires StrictlySorted(s)
    requires forall y :: y in s ==> Less(x, y)
    ensures StrictlySorted([x] + s)
  {
    var r := [x] + s;
    forall i, j | 0 <= i < j < |r|
      ensures Less(r[i], r[j])
    {
      if i > 0 {
        assert r[i] == s[i - 1] && r[j] == s[j - 1];
      } else {
        assert r[j] == s[j - 1];
      }
    }
  }

  /** An element smaller than the head of a strictly sorted list is smaller than all of it. */
  lemma BelowHead(x: string, s: seq<string>)
    requires StrictlySorted(s) && s != [] && Less(x, s[0])
    ensures forall y :: y in s ==> Less(x, y)
  {
    forall y | y in s
      ensures Less(x, y)
    {
      var j :| 0 <= j < |s| && s[j] == y;
      if j > 0 {
        LessTransitive(x, s[0], y);
      }
    }
  }

  /** The head of a strictly sorted list is smaller than every element of its tail and than
      any element larger than it. */
  lemma AboveHead(h: string, x: string, s: seq<string>, t: seq<string>)
    requires StrictlySorted([h] + s) && Less(h, x) && Elems(t) == Elems(s) + {x}
    ensures forall y :: y in t ==> Less(h, y)
  {
    forall y | y in t
      ensures Less(h, y)
    {
      if y != x {
        assert y in Elems(t);
        assert y in Elems(s);
        var j :| 0 <= j < |s| && s[j] == y;
        assert ([h] + s)[0] == h && ([h] + s)[j + 1] == y;
      }
    }
  }

  /** Inserts `x` at its place in a strictly sorted list, unless it is there already. */
  function Insert(x: string, s: seq<string>): (r: seq<string>)
    requires StrictlySorted(s)
    ensures StrictlySorted(r) && Elems(r) == Elems(s) + {x}
  {
    if s == [] then
      [x]
    else if x == s[0] then
      assert Elems(s) == Elems(s) + {x};
      s
    else if Less(x, s[0]) then
      BelowHead(x, s);
      SortedCons(x, s);
      assert Elems([x] + s) == Elems(s) + {x};
      [x] + s
    else
      assert s == [s[0]] + s[1..];
      var t := Insert(x, s[1..]);
      LessTotal(x, s[0]);
      AboveHead(s[0], x, s[1..], t);
      SortedCons(s[0], t);
      assert Elems([s[0]] + t) == {s[0]} + Elems(t);
      assert Elems(s) == {s[0]} + Elems(s[1..]);
      [s[0]] + t
  }

  /** Two strictly sorted lists with the same elements are the same list. */
  lemma {:induction false} SortedUnique(a: seq<string>, b: seq<string>)
    requires StrictlySorted(a) && StrictlySorted(b) && Elems(a) == Elems(b)
    ensures a == b
  {
    assert b != [] ==> b[0] in Elems(b);
    if a != [] {
      assert a[0] in Elems(b);
      assert b != [];
      assert b[0] in Elems(a);
      var i :| 0 <= i < |a| && a[i] == b[0];
      var j :| 0 <= j < |b| && b[j] == a[0];
      LessTotal(a[0], b[0]);
      assert a[0] == b[0];
      assert Elems(a[1..]) == Elems(a) - {a[0]} by {
        assert a == [a[0]] + a[1..];
        forall k | 0 <= k < |a[1..]|
          ensures a[1..][k] != a[0]
        {
          assert Less(a[0], a[k + 1]);
          LessIrreflexive(a[0]);
        }
      }
      assert Elems(b[1..]) == Elems(b) - {b[0]} by {
        assert b == [b[0]] + b[1..];
        forall k | 0 <= k < |b[1..]|
          ensures b[1..][k] != b[0]
        {
          assert Less(b[0], b[k + 1]);
          LessIrreflexive(b[0]);
        }
      }
      SortedUnique(a[1..], b[1..]);
      assert a == [a[0]] + a[1..];
      assert b == [b[0]] + b[1..];
    }
  }

  /** The elements of `s`, sorted, each once: the one list that enumerates `s` in order. */
  ghost function SortedSet(s: set<string>): (r: seq<string>)
    ensures StrictlySorted(r) && Elems(r) == s
  {
    if s == {} then []
    else
      var x :| x in s;
      Insert(x, SortedSet(s - {x}))
  }

  /** `stream().sorted().distinct()`: sorts a list and drops repeated elements. */
  function SortedDistinct(s: seq<string>): (r: seq<string>)
    ensures r == SortedSet(Elems(s))
  {
    if s == [] then
      SortedUnique([], SortedSet({}));
      []
    else
      var init := SortedDistinct(s[..|s| - 1]);
      assert s == s[..|s| - 1] + [s[|s| - 1]];
      assert Elems(s) == Elems(s[..|s| - 1]) + {s[|s| - 1]};
      var r := Insert(s[|s| - 1], init);
      SortedUnique(r, SortedSet(Elems(s)));
      r
  }

  /** `new ArrayList<>(set)` followed by `Collections.sort`: the elements of a set in order. */
  method SortSet(s: set<string>) returns (r: seq<string>)
    ensures r == SortedSet(s)
  {
    r := [];
    var rest := s;
    while rest != {}
      invariant StrictlySorted(r)
      invariant Elems(r) + rest == s
      decreases rest
    {
      var x :| x in rest;
      r := Insert(x, r);
      rest := rest - {x};
    }
    SortedUnique(r, SortedSet(s));
  }
}
