/** The few functions of Go's `strings` package that the tree helpers use, with
    the separator "/" fixed: Split, Join, LastIndex and Repeat (Contains is
    Dafny's own `'/' in s`). */
module Strings {

  /** strings.LastIndex(s, "/"): the index of the last '/' in `s`, or -1. */
  function LastSlash(s: string): (k: int)
    ensures -1 <= k < |s|
    ensures k == -1 <==> '/' !in s
    ensures k >= 0 ==> s[k] == '/' && forall j :: k < j < |s| ==> s[j] != '/'
  {
    if s == [] then -1
    else
      var k := LastSlash(s[1..]);
      if k >= 0 then k + 1
      else if s[0] == '/' then 0
      else -1
  }

  /** strings.Split(s, "/"): the pieces between slashes, never an empty list. */
  function Split(s: string): (parts: seq<string>)
    ensures |parts| >= 1
    ensures |parts| == 1 <==> '/' !in s
  {
    if s == [] then [""]
    else
      var rest := Split(s[1..]);
      if s[0] == '/' then [""] + rest
      else [[s[0]] + rest[0]] + rest[1..]
  }

  /** strings.Join(parts, "/"). */
  function Join(parts: seq<string>): string
  {
    if parts == [] then ""
    else if |parts| == 1 then parts[0]
    else parts[0] + "/" + Join(parts[1..])
  }

  /** strings.Repeat(string(c), n). */
  function Repeat(c: char, n: nat): (r: string)
    ensures |r| == n
    ensures forall i :: 0 <= i < n ==> r[i] == c
  {
    if n == 0 then "" else [c] + Repeat(c, n - 1)
  }

  /** No piece of a split contains a '/'. */
  lemma {:induction false} SplitPiecesSlashFree(s: string)
    ensures forall i :: 0 <= i < |Split(s)| ==> '/' !in Split(s)[i]
  {
    if s != [] {
      var rest := Split(s[1..]);
      SplitPiecesSlashFree(s[1..]);
      if s[0] != '/' {
        assert '/' !in [s[0]] + rest[0];
      }
    }
  }

  /** Join of a piece in front of a non-empty list. */
  lemma JoinCons(p: string, rest: seq<string>)
    requires rest != []
    ensures Join([p] + rest) == p + "/" + Join(rest)
  {
    assert ([p] + rest)[1..] == rest;
  }

  /** Join of a list whose first piece is extended in front by `c`. */
  lemma {:induction false} JoinExtendFirst(c: string, parts: seq<string>)
    requires parts != []
    ensures Join([c + parts[0]] + parts[1..]) == c + Join(parts)
  {
    if |parts| > 1 {
      JoinCons(c + parts[0], parts[1..]);
      JoinCons(parts[0], parts[1..]);
      assert [parts[0]] + parts[1..] == parts;
    }
  }

  /** Joining the pieces of a split gives the string back. */
  lemma {:induction false} JoinSplit(s: string)
    ensures Join(Split(s)) == s
  {
    if s != [] {
      var rest := Split(s[1..]);
      JoinSplit(s[1..]);
      if s[0] == '/' {
        JoinCons("", rest);
      } else {
        JoinExtendFirst([s[0]], rest);
      }
      assert s == [s[0]] + s[1..];
    }
  }

  /** Splitting a join of slash-free pieces gives the pieces back. */
  lemma {:induction false} SplitJoin(parts: seq<string>)
    requires |parts| >= 1
    requires forall i :: 0 <= i < |parts| ==> '/' !in parts[i]
    ensures Split(Join(parts)) == parts
    decreases |Join(parts)|
  {
    var s := Join(parts);
    if |parts| == 1 {
      SplitNoSlash(parts[0]);
    } else if parts[0] == [] {
      JoinCons(parts[0], parts[1..]);
      assert s == "/" + Join(parts[1..]);
      SplitJoin(parts[1..]);
      assert s[1..] == Join(parts[1..]);
      assert parts == [""] + parts[1..];
    } else {
      var p := parts[0];
      var shorter := [p[1..]] + parts[1..];
      assert '/' !in p[1..] by { assert forall j :: 0 <= j < |p[1..]| ==> p[1..][j] == p[j + 1]; }
      assert forall i :: 0 <= i < |shorter| ==> '/' !in shorter[i];
      JoinExtendFirst([p[0]], shorter);
      assert [p[0]] + p[1..] == p;
      assert [[p[0]] + p[1..]] + shorter[1..] == parts;
      assert s == [p[0]] + Join(shorter);
      SplitJoin(shorter);
      assert s[1..] == Join(shorter);
    }
  }

  /** Join of a non-empty list with one more piece at the end. */
  lemma {:induction false} JoinSnoc(parts: seq<string>, x: string)
    requires parts != []
    ensures Join(parts + [x]) == Join(parts) + "/" + x
  {
    if |parts| == 1 {
      assert (parts + [x])[1..] == [x];
    } else {
      assert (parts + [x])[1..] == parts[1..] + [x];
      JoinSnoc(parts[1..], x);
    }
  }

  /** Dropping the last element commutes with extending the first piece. */
  lemma DropLastExtendFirst(c: string, parts: seq<string>)
    requires |parts| >= 2
    ensures var ext := [c + parts[0]] + parts[1..];
      ext[..|ext| - 1] == [c + parts[0]] + parts[..|parts| - 1][1..]
  {
  }

  /** A string without '/' splits into itself. */
  lemma {:induction false} SplitNoSlash(s: string)
    requires '/' !in s
    ensures Split(s) == [s]
  {
    if s != [] {
      assert '/' !in s[1..];
      SplitNoSlash(s[1..]);
      assert [s[0]] + s[1..] == s;
    }
  }

  /** Dropping the last piece of a split and joining the rest gives the
      prefix before the last '/': the namespace of a `group/sub/project` path. */
  lemma {:induction false} JoinDropLast(s: string)
    requires '/' in s
    ensures Join(Split(s)[..|Split(s)| - 1]) == s[..LastSlash(s)]
  {
    var t := s[1..];
    var k := LastSlash(s);
    if '/' !in t {
      SplitNoSlash(t);
      assert s[0] == '/' && k == 0;
    } else {
      JoinDropLast(t);
      DropLastCons(s);
      assert s[..k] == [s[0]] + t[..k - 1];
    }
  }

  /** The pieces before the last of a split, joined, are the first character
      and the same for the rest of the string, when the rest has a '/'. */
  lemma DropLastCons(s: string)
    requires s != [] && '/' in s[1..]
    ensures var rest := Split(s[1..]);
      Join(Split(s)[..|Split(s)| - 1]) == [s[0]] + Join(rest[..|rest| - 1])
  {
    var rest := Split(s[1..]);
    if s[0] == '/' {
      DropLastSlash(s, rest);
    } else {
      DropLastLetter(s, rest);
    }
  }

  lemma DropLastSlash(s: string, rest: seq<string>)
    requires s != [] && s[0] == '/' && rest == Split(s[1..]) && |rest| >= 2
    ensures Join(Split(s)[..|Split(s)| - 1]) == [s[0]] + Join(rest[..|rest| - 1])
  {
    var front := rest[..|rest| - 1];
    assert Split(s) == [""] + rest;
    assert Split(s)[..|Split(s)| - 1] == [""] + front;
    JoinCons("", front);
    assert [s[0]] == "/" == "" + "/";
  }

  lemma DropLastLetter(s: string, rest: seq<string>)
    requires s != [] && s[0] != '/' && rest == Split(s[1..]) && |rest| >= 2
    ensures Join(Split(s)[..|Split(s)| - 1]) == [s[0]] + Join(rest[..|rest| - 1])
  {
    var front := rest[..|rest| - 1];
    var ext := [[s[0]] + rest[0]] + rest[1..];
    assert Split(s) == ext;
    DropLastExtendFirst([s[0]], rest);
    assert ext[..|ext| - 1] == [[s[0]] + front[0]] + front[1..];
    JoinExtendFirst([s[0]], front);
  }
}
