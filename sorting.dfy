/** Go's sort.Strings, as writePathTreeToMarkdown uses it to put a node's
    child names in order. Go compares strings byte by byte in their UTF-8
    encoding, which orders them exactly as comparing code point by code
    point does; a Dafny `char` is a code point, so `Less` compares chars. */
module Sorting {

  /** a < b in Go's string order: the first differing character decides,
      and a proper prefix comes first. */
  predicate Less(a: string, b: string)
  {
    if a == [] then b != []
    else if b == [] then false
    else a[0] < b[0] || (a[0] == b[0] && Less(a[1..], b[1..]))
  }

  predicate LessEq(a: string, b: string)
  {
    a == b || Less(a, b)
  }

  lemma {:induction false} LessIrreflexive(a: string)
    ensures !Less(a, a)
  {
    if a != [] {
      LessIrreflexive(a[1..]);
    }
  }

  lemma {:induction false} LessAsymmetric(a: string, b: string)
    ensures !(Less(a, b) && Less(b, a))
  {
    if a != [] && b != [] {
      LessAsymmetric(a[1..], b[1..]);
    }
  }

  lemma {:induction false} LessTransitive(a: string, b: string, c: string)
    requires Less(a, b) && Less(b, c)
    ensures Less(a, c)
  {
    if a != [] && a[0] == b[0] && b[0] == c[0] {
      LessTransitive(a[1..], b[1..], c[1..]);
    }
  }

  /** Any two different strings are ordered one way or the other. */
  lemma {:induction false} LessTotal(a: string, b: string)
    requires a != b
    ensures Less(a, b) || Less(b, a)
  {
    if a != [] && b != [] && a[0] == b[0] {
      assert a == [a[0]] + a[1..] && b == [b[0]] + b[1..];
      LessTotal(a[1..], b[1..]);
    }
  }

  lemma LessEqTransitive(a: string, b: string, c: string)
    requires LessEq(a, b) && LessEq(b, c)
    ensures LessEq(a, c)
  {
    if Less(a, b) && Less(b, c) {
      LessTransitive(a, b, c);
    }
  }

  /** Ascending in Go's string order (sort.Strings' postcondition). */
  predicate Sorted(s: seq<string>)
  {
    forall i, j :: 0 <= i < j < |s| ==> LessEq(s[i], s[j])
  }

  /** Strictly ascending: sorted with no repeats, as sorted map keys are. */
  predicate StrictlySorted(s: seq<string>)
  {
    forall i, j :: 0 <= i < j < |s| ==> Less(s[i], s[j])
  }

  // ---------------------------------------------------------------------
  // The order of a set of names, as a reference definition
  // ---------------------------------------------------------------------

  /** `m` is the least element of `s`. */
  predicate IsLeast(m: string, s: set<string>)
  {
    m in s && forall x :: x in s ==> LessEq(m, x)
  }

  /** A non-empty set of strings has a least element. */
  lemma {:induction false} LeastExists(s: set<string>)
    requires s != {}
    ensures exists m :: IsLeast(m, s)
    decreases |s|
  {
    var y :| y in s;
    var rest := s - {y};
    if rest == {} {
      assert s == {y};
      assert IsLeast(y, s);
    } else {
      LeastExists(rest);
      var m :| IsLeast(m, rest);
      if Less(y, m) {
        assert IsLeast(y, s) by {
          forall x | x in s
            ensures LessEq(y, x)
          {
            if x != y {
              assert x in rest;
              LessEqTransitive(y, m, x);
            }
          }
        }
      } else {
        assert IsLeast(m, s) by {
          LessTotal(m, y);
        }
      }
    }
  }

  ghost function Least(s: set<string>): (m: string)
    requires s != {}
    ensures IsLeast(m, s)
  {
    LeastExists(s);
    var m :| IsLeast(m, s);
    m
  }

  /** The elements of `s` in ascending order: what sort.Strings makes of a
      map's keys, whatever order the map iteration produced them in. */
  ghost function SortedNames(s: set<string>): seq<string>
    decreases |s|
  {
    if s == {} then []
    else
      var m := Least(s);
      [m] + SortedNames(s - {m})
  }

  /** SortedNames(s) lists exactly the elements of s, once each, strictly
      ascending. */
  lemma {:induction false} SortedNamesSpec(s: set<string>)
    ensures StrictlySorted(SortedNames(s))
    ensures multiset(SortedNames(s)) == multiset(s)
    ensures |SortedNames(s)| == |s|
    decreases |s|
  {
    if s != {} {
      var m := Least(s);
      var rest := SortedNames(s - {m});
      SortedNamesSpec(s - {m});
      assert multiset(s) == multiset{m} + multiset(s - {m});
      forall j | 0 <= j < |rest|
        ensures Less(m, rest[j])
      {
        assert rest[j] in multiset(rest);
        assert rest[j] in s - {m};
      }
      var r := [m] + rest;
      forall i, j | 0 <= i < j < |r|
        ensures Less(r[i], r[j])
      {
        if i > 0 {
          assert r[i] == rest[i - 1] && r[j] == rest[j - 1];
        }
      }
    }
  }

  /** A name is listed by SortedNames(s) iff it is in s. */
  lemma SortedNamesMembers(s: set<string>)
    ensures forall x :: x in SortedNames(s) <==> x in s
  {
    SortedNamesSpec(s);
    forall x
      ensures x in SortedNames(s) <==> x in s
    {
      assert x in SortedNames(s) <==> x in multiset(SortedNames(s));
    }
  }

  /** Two ascending sequences with the same elements start alike. */
  lemma SortedHeads(a: seq<string>, b: seq<string>)
    requires Sorted(a) && Sorted(b)
    requires multiset(a) == multiset(b)
    requires a != []
    ensures b != [] && a[0] == b[0]
  {
    assert a[0] in multiset(b);
    var j :| 0 <= j < |b| && b[j] == a[0];
    assert b[0] in multiset(a);
    var i :| 0 <= i < |a| && a[i] == b[0];
    if i > 0 { assert LessEq(a[0], a[i]); }
    if j > 0 { assert LessEq(b[0], b[j]); }
    LessAsymmetric(a[0], b[0]);
  }

  lemma SortedTail(a: seq<string>)
    requires Sorted(a) && a != []
    ensures Sorted(a[1..])
  {
    forall i, j | 0 <= i < j < |a| - 1
      ensures LessEq(a[1..][i], a[1..][j])
    {
      assert a[1..][i] == a[i + 1] && a[1..][j] == a[j + 1];
    }
  }

  /** Two ascending sequences with the same elements are equal: the sorted
      order does not depend on the order the elements came in. */
  lemma {:induction false} SortedUnique(a: seq<string>, b: seq<string>)
    requires Sorted(a) && Sorted(b)
    requires multiset(a) == multiset(b)
    ensures a == b
  {
    if a != [] {
      SortedHeads(a, b);
      var x := a[0];
      assert multiset(a[1..]) == multiset(b[1..]) by {
        assert a == [x] + a[1..] && b == [x] + b[1..];
        assert multiset(a[1..]) == multiset(a) - multiset{x};
        assert multiset(b[1..]) == multiset(b) - multiset{x};
      }
      SortedTail(a);
      SortedTail(b);
      SortedUnique(a[1..], b[1..]);
      assert a == [x] + a[1..] && b == [x] + b[1..];
    } else {
      assert |b| == |multiset(b)| == 0;
    }
  }

  // ---------------------------------------------------------------------
  // The methods
  // ---------------------------------------------------------------------

  /** sort.Strings: sorts the names into ascending order. */
  method SortStrings(names: seq<string>) returns (sorted: seq<string>)
    ensures Sorted(sorted)
    ensures multiset(sorted) == multiset(names)
  {
    sorted := [];
    for i := 0 to |names|
      invariant Sorted(sorted)
      invariant multiset(sorted) == multiset(names[..i])
    {
      sorted := InsertSorted(sorted, names[i]);
      assert names[..i + 1] == names[..i] + [names[i]];
    }
    assert names[..|names|] == names;
  }

  /** Inserts `x` into an ascending sequence, after the elements that are
      not greater than it. */
  method InsertSorted(s: seq<string>, x: string) returns (r: seq<string>)
    requires Sorted(s)
    ensures Sorted(r)
    ensures multiset(r) == multiset(s) + multiset{x}
  {
    var k := 0;
    while k < |s| && LessEq(s[k], x)
      invariant 0 <= k <= |s|
      invariant forall j :: 0 <= j < k ==> LessEq(s[j], x)
    {
      k := k + 1;
    }
    r := s[..k] + [x] + s[k..];
    forall i, j | 0 <= i < j < |r|
      ensures LessEq(r[i], r[j])
    {
      if j == k {
        assert r[i] == s[i];
      } else if i == k {
        assert r[j] == s[j - 1];
        LessTotal(s[k], x);
        if k < j - 1 {
          LessEqTransitive(x, s[k], s[j - 1]);
        }
      } else {
        assert r[i] == (if i < k then s[i] else s[i - 1]);
        assert r[j] == (if j < k then s[j] else s[j - 1]);
      }
    }
    assert s == s[..k] + s[k..];
  }

  /** The names of a node's children in ascending order: the keys are
      collected in whatever order the map yields them and then sorted. */
  method SortedChildNames<V>(children: map<string, V>) returns (names: seq<string>)
    ensures names == SortedNames(children.Keys)
  {
    var collected: seq<string> := [];
    var rest := children.Keys;
    while rest != {}
      invariant rest <= children.Keys
      invariant multiset(collected) + multiset(rest) == multiset(children.Keys)
      decreases |rest|
    {
      var name :| name in rest;
      collected := collected + [name];
      rest := rest - {name};
    }
    names := SortStrings(collected);
    SortedNamesSpec(children.Keys);
    SortedUnique(names, SortedNames(children.Keys));
  }
}
