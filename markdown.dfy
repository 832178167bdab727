/** The two Markdown writers of handlers/structureDownload.go. Both only ever
    append to a bytes.Buffer: here the buffer is a string handed in and handed
    back, and the text each writer appends is a function of the tree. */
module Markdown {
  import opened Wrappers
  import opened Models
  import opened Strings
  import opened PathTree
  import Sorting
  import GroupWalks

  /** `s` begins with `a`. Recursive, so that the verifier unfolds it one
      character at a time rather than all at once. */
  predicate StartsWith(a: string, s: string)
    decreases |a|
  {
    |a| <= |s| && (a == [] || (a[0] == s[0] && StartsWith(a[1..], s[1..])))
  }

  lemma {:induction false} StartsWithIsPrefix(a: string, s: string)
    ensures StartsWith(a, s) <==> a <= s
    decreases |a|
  {
    if a != [] && |a| <= |s| {
      StartsWithIsPrefix(a[1..], s[1..]);
      assert a <= s <==> a[0] == s[0] && a[1..] <= s[1..];
    }
  }

  /** `a` occurs somewhere in `s` as a contiguous piece. */
  predicate Infix(a: string, s: string)
  {
    exists k :: 0 <= k <= |s| && StartsWith(a, s[k..])
  }

  /** Infix from a known offset. */
  lemma InfixAt(a: string, s: string, k: nat)
    requires k <= |s| && a <= s[k..]
    ensures Infix(a, s)
  {
    StartsWithIsPrefix(a, s[k..]);
  }

  lemma InfixSelf(a: string)
    ensures Infix(a, a)
  {
    InfixAt(a, a, 0);
  }

  lemma InfixTransitive(a: string, b: string, c: string)
    requires Infix(a, b) && Infix(b, c)
    ensures Infix(a, c)
  {
    var k :| 0 <= k <= |b| && StartsWith(a, b[k..]);
    var m :| 0 <= m <= |c| && StartsWith(b, c[m..]);
    StartsWithIsPrefix(a, b[k..]);
    StartsWithIsPrefix(b, c[m..]);
    assert a <= c[m + k..] by {
      forall j | 0 <= j < |a|
        ensures c[m + k..][j] == a[j]
      {
        assert c[m + k..][j] == c[m..][k + j] == b[k + j] == b[k..][j];
      }
    }
    InfixAt(a, c, m + k);
  }

  lemma Associative(x: string, y: string, z: string)
    ensures x + y + z == x + (y + z)
  {
  }

  lemma InfixChain(a: string, b: string, c: string, d: string)
    requires Infix(a, b) && Infix(b, c) && Infix(c, d)
    ensures Infix(a, d)
  {
    InfixTransitive(a, b, c);
    InfixTransitive(a, c, d);
  }

  /** The last piece of a concatenation is one of its pieces. */
  lemma InfixEnd(a: string, u: string, w: string)
    requires w == u + a
    ensures Infix(a, w)
  {
    assert w[|u|..] == a;
    InfixAt(a, w, |u|);
  }

  /** A piece of the front of a concatenation is a piece of the whole. */
  lemma InfixFront(a: string, s: string, v: string, w: string)
    requires Infix(a, s) && w == s + v
    ensures Infix(a, w)
  {
    var k :| 0 <= k <= |s| && StartsWith(a, s[k..]);
    StartsWithIsPrefix(a, s[k..]);
    assert w[k..] == s[k..] + v;
    InfixAt(a, w, k);
  }

  /** A piece of the back of a concatenation is a piece of the whole. */
  lemma InfixBack(a: string, u: string, s: string, w: string)
    requires Infix(a, s) && w == u + s
    ensures Infix(a, w)
  {
    var k :| 0 <= k <= |s| && StartsWith(a, s[k..]);
    StartsWithIsPrefix(a, s[k..]);
    assert w[|u| + k..] == s[k..];
    InfixAt(a, w, |u| + k);
  }

  /** A piece of the middle of a concatenation is a piece of the whole. */
  lemma InfixMiddle(a: string, u: string, s: string, v: string, w: string)
    requires Infix(a, s) && w == u + s + v
    ensures Infix(a, w)
  {
    InfixBack(a, u, s, u + s);
    InfixFront(a, u + s, v, w);
  }

  /** Infix of equal strings. */
  lemma InfixSubst(a: string, b: string, s: string)
    requires Infix(a, s) && a == b
    ensures Infix(b, s)
  {
  }

  /** The first piece of a concatenation is one of its pieces. */
  lemma InfixStart(a: string, v: string, w: string)
    requires w == a + v
    ensures Infix(a, w)
  {
    assert w[0..] == w;
    InfixAt(a, w, 0);
  }

  // ---------------------------------------------------------------------
  // Text shared by both writers
  // ---------------------------------------------------------------------

  /** A heading: `n` '#', a space, the title and a blank line. */
  function Heading(n: nat, title: string): (r: string)
    ensures |r| == n + |title| + 3
  {
    Repeat('#', n) + " " + title + "\n\n"
  }

  /** One project line: a link named after the project, then its path in
      backquotes. */
  function ProjectLine(name: string, webURL: string, pathWithNamespace: string): string
  {
    "- [" + name + "](" + webURL + "): `" + pathWithNamespace + "`\n"
  }

  function CachedProjectLine(p: CachedProject): string
  {
    ProjectLine(p.name, p.webURL, p.pathWithNamespace)
  }

  function GroupProjectLine(p: Project): string
  {
    ProjectLine(p.name, p.webURL, p.pathWithNamespace)
  }

  /** The project lines of a path node, in order. */
  function CachedProjectLines(ps: seq<CachedProject>): string
  {
    if ps == [] then "" else CachedProjectLines(ps[..|ps| - 1]) + CachedProjectLine(ps[|ps| - 1])
  }

  /** The project lines of a group, in order. */
  function GroupProjectLines(ps: seq<Project>): string
  {
    if ps == [] then "" else GroupProjectLines(ps[..|ps| - 1]) + GroupProjectLine(ps[|ps| - 1])
  }

  /** The loop over a path node's projects: appends their lines. */
  method WriteCachedProjectLines(buffer: string, ps: seq<CachedProject>) returns (out: string)
    ensures out == buffer + CachedProjectLines(ps)
  {
    out := buffer;
    for j := 0 to |ps|
      invariant out == buffer + CachedProjectLines(ps[..j])
    {
      var project := ps[j];
      Associative(buffer, CachedProjectLines(ps[..j]), CachedProjectLine(project));
      out := out + ("- [" + project.name + "](" + project.webURL + "): `" + project.pathWithNamespace + "`\n");
      TakeSnoc(ps, j);
    }
    assert ps[..|ps|] == ps;
  }

  /** The loop over a group's projects: appends their lines. */
  method WriteGroupProjectLines(buffer: string, ps: seq<Project>) returns (out: string)
    ensures out == buffer + GroupProjectLines(ps)
  {
    out := buffer;
    for j := 0 to |ps|
      invariant out == buffer + GroupProjectLines(ps[..j])
    {
      var project := ps[j];
      Associative(buffer, GroupProjectLines(ps[..j]), GroupProjectLine(project));
      out := out + ("- [" + project.name + "](" + project.webURL + "): `" + project.pathWithNamespace + "`\n");
      TakeSnoc(ps, j);
    }
    assert ps[..|ps|] == ps;
  }

  /** Every project of a node has its line in the node's list. */
  lemma {:induction false} CachedLineShown(ps: seq<CachedProject>, p: CachedProject)
    requires p in ps
    ensures Infix(CachedProjectLine(p), CachedProjectLines(ps))
  {
    var front := ps[..|ps| - 1];
    var last := ps[|ps| - 1];
    if p == last {
      InfixEnd(CachedProjectLine(p), CachedProjectLines(front), CachedProjectLines(ps));
    } else {
      assert ps == front + [last];
      assert p in front;
      CachedLineShown(front, p);
      InfixFront(CachedProjectLine(p), CachedProjectLines(front), CachedProjectLine(last), CachedProjectLines(ps));
    }
  }

  /** Every project of a group has its line in the group's list. */
  lemma {:induction false} GroupLineShown(ps: seq<Project>, p: Project)
    requires p in ps
    ensures Infix(GroupProjectLine(p), GroupProjectLines(ps))
  {
    var front := ps[..|ps| - 1];
    var last := ps[|ps| - 1];
    if p == last {
      InfixEnd(GroupProjectLine(p), GroupProjectLines(front), GroupProjectLines(ps));
    } else {
      assert ps == front + [last];
      assert p in front;
      GroupLineShown(front, p);
      InfixFront(GroupProjectLine(p), GroupProjectLines(front), GroupProjectLine(last), GroupProjectLines(ps));
    }
  }

  // ---------------------------------------------------------------------
  // writePathTreeToMarkdown
  // ---------------------------------------------------------------------

  /** The full path line written under a node's heading. */
  function FullPathLine(fullPath: string): string
  {
    "- **Full Path:** `" + fullPath + "`\n\n"
  }

  /** What a node writes about itself: nothing at level 0 (the root), else
      its heading one deeper than its level and, when it has one, its full
      path. */
  function NodeHeader(node: PathNode, level: nat): string
  {
    if level == 0 then ""
    else Heading(level + 1, node.name) + (if node.fullPath != "" then FullPathLine(node.fullPath) else "")
  }

  /** The project block of a node: its lines and a blank line, under a
      "**Projects:**" header except at level 0; nothing without projects. */
  function NodeProjects(node: PathNode, level: nat): string
  {
    if node.projects == [] then ""
    else (if level > 0 then "**Projects:**\n\n" else "") + CachedProjectLines(node.projects) + "\n"
  }

  /** The text writePathTreeToMarkdown appends for node i at `level`: its
      header, its projects, then its children one level deeper, in ascending
      order of name. */
  ghost function PathNodeMarkdown(t: seq<PathNode>, i: nat, level: nat): string
    requires Valid(t) && i < |t|
    decreases |t| - i, 1, 0
  {
    var names := Sorting.SortedNames(t[i].children.Keys);
    Sorting.SortedNamesMembers(t[i].children.Keys);
    NodeHeader(t[i], level) + NodeProjects(t[i], level) + ChildrenMarkdown(t, i, names, level + 1)
  }

  /** The text of the children of node i named `names`, in that order. */
  ghost function ChildrenMarkdown(t: seq<PathNode>, i: nat, names: seq<string>, level: nat): string
    requires Valid(t) && i < |t|
    requires forall k :: 0 <= k < |names| ==> names[k] in t[i].children
    decreases |t| - i, 0, |names|
  {
    if names == [] then ""
    else
      var key := names[|names| - 1];
      assert ChildOK(t, i, key);
      ChildrenMarkdown(t, i, names[..|names| - 1], level) + PathNodeMarkdown(t, t[i].children[key], level)
  }

  /** writePathTreeToMarkdown: appends the text of node i and everything
      below it to `buffer`, children in ascending order of name whatever the
      order of the map. */
  method WritePathTreeToMarkdown(buffer: string, t: seq<PathNode>, i: nat, level: nat) returns (out: string)
    requires Valid(t) && i < |t|
    ensures out == buffer + PathNodeMarkdown(t, i, level)
    decreases |t| - i, 1
  {
    var header := WriteNodeHeader(buffer, t[i], level);
    var projects := WriteNodeProjects(header, t[i], level);
    var names := Sorting.SortedChildNames(t[i].children);
    PathNodeMarkdownParts(t, i, level, names);
    out := WriteChildren(projects, t, i, names, level + 1);
    AppendThree(buffer, NodeHeader(t[i], level), NodeProjects(t[i], level), ChildrenMarkdown(t, i, names, level + 1),
                PathNodeMarkdown(t, i, level), header, projects, out);
  }

  /** The three parts of a node's text. */
  lemma PathNodeMarkdownParts(t: seq<PathNode>, i: nat, level: nat, names: seq<string>)
    requires Valid(t) && i < |t|
    requires names == Sorting.SortedNames(t[i].children.Keys)
    ensures forall k :: 0 <= k < |names| ==> names[k] in t[i].children
    ensures PathNodeMarkdown(t, i, level) ==
      NodeHeader(t[i], level) + NodeProjects(t[i], level) + ChildrenMarkdown(t, i, names, level + 1)
  {
    Sorting.SortedNamesMembers(t[i].children.Keys);
  }

  /** Appending three pieces one after the other appends their concatenation. */
  lemma AppendThree(buffer: string, a: string, b: string, c: string, whole: string, x: string, y: string, z: string)
    requires whole == a + b + c
    requires x == buffer + a && y == x + b && z == y + c
    ensures z == buffer + whole
  {
    Associative(buffer, a, b);
    Associative(buffer, a + b, c);
  }

  /** The heading and full path line of a node below the root. */
  method WriteNodeHeader(buffer: string, node: PathNode, level: nat) returns (out: string)
    ensures out == buffer + NodeHeader(node, level)
  {
    out := buffer;
    if level > 0 {
      var prefix := Repeat('#', level + 1);
      out := out + (prefix + " " + node.name + "\n\n");
      if node.fullPath != "" {
        Associative(buffer, Heading(level + 1, node.name), FullPathLine(node.fullPath));
        out := out + ("- **Full Path:** `" + node.fullPath + "`\n\n");
      }
    }
  }

  /** The project block of a node. */
  method WriteNodeProjects(buffer: string, node: PathNode, level: nat) returns (out: string)
    ensures out == buffer + NodeProjects(node, level)
  {
    out := buffer;
    if |node.projects| > 0 {
      ghost var tag := if level > 0 then "**Projects:**\n\n" else "";
      if level > 0 {
        out := out + "**Projects:**\n\n";
      }
      assert out == buffer + tag;
      out := WriteCachedProjectLines(out, node.projects);
      Associative(buffer, tag, CachedProjectLines(node.projects));
      Associative(buffer, tag + CachedProjectLines(node.projects), "\n");
      out := out + "\n";
    }
  }

  /** The loop over the sorted child names: each child's text in turn. */
  method WriteChildren(buffer: string, t: seq<PathNode>, i: nat, names: seq<string>, level: nat) returns (out: string)
    requires Valid(t) && i < |t|
    requires forall k :: 0 <= k < |names| ==> names[k] in t[i].children
    ensures out == buffer + ChildrenMarkdown(t, i, names, level)
    decreases |t| - i, 0
  {
    out := buffer;
    for k := 0 to |names|
      invariant out == buffer + ChildrenMarkdown(t, i, names[..k], level)
    {
      var c := t[i].children[names[k]];
      ChildrenStep(t, i, names, k, level, c, buffer, out);
      out := WritePathTreeToMarkdown(out, t, c, level);
    }
    assert names[..|names|] == names;
  }

  /** After the first k children have been written, writing child c, named
      names[k], gives the text of the first k + 1. */
  lemma ChildrenStep(t: seq<PathNode>, i: nat, names: seq<string>, k: nat, level: nat, c: nat,
                     buffer: string, out: string)
    requires Valid(t) && i < |t| && k < |names|
    requires forall j :: 0 <= j < |names| ==> names[j] in t[i].children
    requires c == t[i].children[names[k]]
    requires out == buffer + ChildrenMarkdown(t, i, names[..k], level)
    ensures i < c < |t|
    ensures out + PathNodeMarkdown(t, c, level) == buffer + ChildrenMarkdown(t, i, names[..k + 1], level)
  {
    ChildrenPrefixStep(t, i, names, k, level, c);
    Associative(buffer, ChildrenMarkdown(t, i, names[..k], level), PathNodeMarkdown(t, c, level));
  }

  /** The text of the first k + 1 children is that of the first k, then that
      of child c, named names[k]. */
  lemma ChildrenPrefixStep(t: seq<PathNode>, i: nat, names: seq<string>, k: nat, level: nat, c: nat)
    requires Valid(t) && i < |t| && k < |names|
    requires forall j :: 0 <= j < |names| ==> names[j] in t[i].children
    requires c == t[i].children[names[k]]
    ensures i < c < |t|
    ensures ChildrenMarkdown(t, i, names[..k + 1], level) ==
      ChildrenMarkdown(t, i, names[..k], level) + PathNodeMarkdown(t, c, level)
  {
    var upTo := names[..k + 1];
    assert upTo[..|upTo| - 1] == names[..k] && upTo[|upTo| - 1] == names[k];
    var last := ChildrenSnoc(t, i, upTo, level);
  }

  /** A node without projects or children writes only its header. */
  lemma LeafMarkdown(t: seq<PathNode>, i: nat, level: nat)
    requires Valid(t) && i < |t|
    requires t[i].projects == [] && t[i].children == map[]
    ensures level == 0 ==> PathNodeMarkdown(t, i, level) == ""
    ensures level > 0 ==>
      PathNodeMarkdown(t, i, level) ==
        Heading(level + 1, t[i].name) + (if t[i].fullPath != "" then FullPathLine(t[i].fullPath) else "")
  {
    Sorting.SortedNamesSpec(t[i].children.Keys);
  }

  /** The text of the child named names[k] is part of the children's text. */
  lemma {:induction false} ChildInChildren(t: seq<PathNode>, i: nat, names: seq<string>, level: nat, k: nat)
    requires Valid(t) && i < |t|
    requires forall j :: 0 <= j < |names| ==> names[j] in t[i].children
    requires k < |names|
    ensures ChildOK(t, i, names[k])
    ensures Infix(PathNodeMarkdown(t, t[i].children[names[k]], level), ChildrenMarkdown(t, i, names, level))
    decreases |names|, 1
  {
    if k == |names| - 1 {
      var c := ChildrenSnoc(t, i, names, level);
      InfixEnd(PathNodeMarkdown(t, c, level), ChildrenMarkdown(t, i, names[..|names| - 1], level),
               ChildrenMarkdown(t, i, names, level));
    } else {
      ChildBeforeLast(t, i, names, level, k);
    }
  }

  /** The same for a child other than the last: it is inside the text of
      all but the last name. */
  lemma {:induction false} ChildBeforeLast(t: seq<PathNode>, i: nat, names: seq<string>, level: nat, k: nat)
    requires Valid(t) && i < |t|
    requires forall j :: 0 <= j < |names| ==> names[j] in t[i].children
    requires k < |names| - 1
    ensures ChildOK(t, i, names[k])
    ensures Infix(PathNodeMarkdown(t, t[i].children[names[k]], level), ChildrenMarkdown(t, i, names, level))
    decreases |names|, 0
  {
    var front := names[..|names| - 1];
    FrontPrefix(t, i, names, front, k);
    ChildInChildren(t, i, front, level, k);
    var c := ChildrenSnoc(t, i, names, level);
    InfixFront(PathNodeMarkdown(t, t[i].children[names[k]], level), ChildrenMarkdown(t, i, front, level),
               PathNodeMarkdown(t, c, level), ChildrenMarkdown(t, i, names, level));
  }


  /** All but the last name are still children's names, and name k < the
      last is among them. */
  lemma FrontPrefix(t: seq<PathNode>, i: nat, names: seq<string>, front: seq<string>, k: nat)
    requires i < |t| && names != [] && front == names[..|names| - 1] && k < |front|
    requires forall j :: 0 <= j < |names| ==> names[j] in t[i].children
    ensures forall j :: 0 <= j < |front| ==> front[j] in t[i].children
    ensures front[k] == names[k]
  {
  }

  /** The children's text is that of all but the last name, then the text
      of the child c named last. */
  lemma ChildrenSnoc(t: seq<PathNode>, i: nat, names: seq<string>, level: nat) returns (c: nat)
    requires Valid(t) && i < |t| && names != []
    requires forall j :: 0 <= j < |names| ==> names[j] in t[i].children
    ensures ChildOK(t, i, names[|names| - 1]) && c == t[i].children[names[|names| - 1]]
    ensures c < |t|
    ensures ChildrenMarkdown(t, i, names, level) ==
      ChildrenMarkdown(t, i, names[..|names| - 1], level) + PathNodeMarkdown(t, c, level)
  {
    var key := names[|names| - 1];
    assert ChildOK(t, i, key);
    c := t[i].children[key];
  }

  /** Every child of a node is written, one level deeper, inside the node's
      text. */
  lemma ChildShown(t: seq<PathNode>, i: nat, level: nat, key: string)
    requires Valid(t) && i < |t| && key in t[i].children
    ensures ChildOK(t, i, key)
    ensures Infix(PathNodeMarkdown(t, t[i].children[key], level + 1), PathNodeMarkdown(t, i, level))
  {
    var names := Sorting.SortedNames(t[i].children.Keys);
    Sorting.SortedNamesMembers(t[i].children.Keys);
    var k :| 0 <= k < |names| && names[k] == key;
    ChildInChildren(t, i, names, level + 1, k);
    InfixBack(PathNodeMarkdown(t, t[i].children[key], level + 1), NodeHeader(t[i], level) + NodeProjects(t[i], level),
              ChildrenMarkdown(t, i, names, level + 1), PathNodeMarkdown(t, i, level));
  }

  /** Every node below node i is written inside node i's text, as many levels
      deeper as it is segments below. */
  lemma {:induction false} NodeShown(t: seq<PathNode>, i: nat, level: nat, segs: seq<string>, n: nat, target: nat)
    requires Valid(t) && i < |t|
    requires Lookup(t, i, segs) == Some(n) && target == level + |segs|
    ensures n < |t|
    ensures Infix(PathNodeMarkdown(t, n, target), PathNodeMarkdown(t, i, level))
    decreases |segs|
  {
    if segs == [] {
      SameNode(t, n, target, i, level);
    } else {
      ChildShown(t, i, level, segs[0]);
      assert Lookup(t, t[i].children[segs[0]], segs[1..]) == Some(n);
      NodeShown(t, t[i].children[segs[0]], level + 1, segs[1..], n, target);
      InfixTransitive(PathNodeMarkdown(t, n, target), PathNodeMarkdown(t, t[i].children[segs[0]], level + 1),
                      PathNodeMarkdown(t, i, level));
    }
  }

  lemma SameNode(t: seq<PathNode>, n: nat, x: nat, i: nat, y: nat)
    requires Valid(t) && i < |t| && n == i && x == y
    ensures Infix(PathNodeMarkdown(t, n, x), PathNodeMarkdown(t, i, y))
  {
    InfixSelf(PathNodeMarkdown(t, i, y));
  }

  /** The text of a node below the root starts with its heading, then its
      full path line when it has a full path. */
  lemma NodeHeadingFirst(t: seq<PathNode>, n: nat, level: nat)
    requires Valid(t) && n < |t| && level > 0
    ensures Infix(Heading(level + 1, t[n].name), PathNodeMarkdown(t, n, level))
    ensures t[n].fullPath != "" ==>
      Infix(Heading(level + 1, t[n].name) + FullPathLine(t[n].fullPath), PathNodeMarkdown(t, n, level))
  {
    var names := Sorting.SortedNames(t[n].children.Keys);
    PathNodeMarkdownParts(t, n, level, names);
    var h := Heading(level + 1, t[n].name);
    var fpl := if t[n].fullPath != "" then FullPathLine(t[n].fullPath) else "";
    var hd := NodeHeader(t[n], level);
    var np := NodeProjects(t[n], level);
    var whole := PathNodeMarkdown(t, n, level);
    assert hd == h + fpl;
    InfixStart(hd, np, hd + np);
    InfixFront(hd, hd + np, ChildrenMarkdown(t, n, names, level + 1), whole);
    InfixStart(h, fpl, hd);
    InfixTransitive(h, hd, whole);
    if t[n].fullPath != "" {
      InfixSubst(hd, h + FullPathLine(t[n].fullPath), whole);
    }
  }

  /** The whole download written from the root at level 0: every node at
      depth d below the root appears with a heading of d + 1 '#' naming its
      last segment, followed by its full path, the segments joined by '/',
      when that is not empty. */
  lemma DownloadShowsNode(t: seq<PathNode>, segs: seq<string>)
    requires Valid(t) && segs != [] && Lookup(t, 0, segs).Some?
    ensures Infix(Heading(|segs| + 1, segs[|segs| - 1]), PathNodeMarkdown(t, 0, 0))
    ensures Join(segs) != "" ==>
      Infix(Heading(|segs| + 1, segs[|segs| - 1]) + FullPathLine(Join(segs)), PathNodeMarkdown(t, 0, 0))
  {
    var n := Lookup(t, 0, segs).value;
    NodeShown(t, 0, 0, segs, n, |segs|);
    LookupFullPath(t, segs);
    NodeHeadingFirst(t, n, |segs|);
    InfixTransitive(Heading(|segs| + 1, segs[|segs| - 1]), PathNodeMarkdown(t, n, |segs|), PathNodeMarkdown(t, 0, 0));
    if Join(segs) != "" {
      InfixTransitive(Heading(|segs| + 1, segs[|segs| - 1]) + FullPathLine(Join(segs)),
                      PathNodeMarkdown(t, n, |segs|), PathNodeMarkdown(t, 0, 0));
    }
  }

  /** Every project a node holds has its line in the node's text. */
  lemma NodeProjectShown(t: seq<PathNode>, n: nat, level: nat, p: CachedProject)
    requires Valid(t) && n < |t| && p in t[n].projects
    ensures Infix(CachedProjectLine(p), PathNodeMarkdown(t, n, level))
  {
    Sorting.SortedNamesMembers(t[n].children.Keys);
    CachedLineShown(t[n].projects, p);
    InfixMiddle(CachedProjectLine(p), if level > 0 then "**Projects:**\n\n" else "", CachedProjectLines(t[n].projects), "\n",
                NodeProjects(t[n], level));
    InfixMiddle(CachedProjectLine(p), NodeHeader(t[n], level), NodeProjects(t[n], level),
                ChildrenMarkdown(t, n, Sorting.SortedNames(t[n].children.Keys), level + 1), PathNodeMarkdown(t, n, level));
  }

  /** A project is among those kept for the node its path leads to. */
  lemma {:induction false} InProjectsAt(t: seq<PathNode>, ps: seq<CachedProject>, j: nat, n: nat)
    requires j < |ps| && Home(t, ps[j]) == Some(n)
    ensures ps[j] in ProjectsAt(t, ps, n)
  {
    var front := ps[..|ps| - 1];
    if j < |ps| - 1 {
      assert ps[j] == front[j];
      InProjectsAt(t, front, j, n);
    }
  }

  /** End to end: of a tree built by BuildProjectPathTree, the download
      written from the root at level 0 lists every input project. */
  lemma DownloadListsEveryProject(t: seq<PathNode>, projects: seq<CachedProject>, j: nat)
    requires Valid(t)
    requires forall k :: 0 <= k < |projects| ==> Home(t, projects[k]).Some?
    requires forall n :: 0 <= n < |t| ==> t[n].projects == ProjectsAt(t, projects, n)
    requires j < |projects|
    ensures Infix(CachedProjectLine(projects[j]), PathNodeMarkdown(t, 0, 0))
  {
    var dirs := Dirs(projects[j].pathWithNamespace);
    var n := Home(t, projects[j]).value;
    NodeShown(t, 0, 0, dirs, n, |dirs|);
    InProjectsAt(t, projects, j, n);
    NodeProjectShown(t, n, |dirs|, projects[j]);
    InfixTransitive(CachedProjectLine(projects[j]), PathNodeMarkdown(t, n, |dirs|), PathNodeMarkdown(t, 0, 0));
  }

  /** End to end: with no projects the builder's tree is the bare root, so
      the download written from it at level 0 is empty. */
  lemma NoProjectsEmptyDownload(t: seq<PathNode>)
    requires Valid(t)
    requires forall n :: 0 <= n < |t| ==> t[n].projects == ProjectsAt(t, [], n)
    requires forall n: nat :: 0 < n < |t| ==> OnGroupPath(t, [], n)
    ensures PathNodeMarkdown(t, 0, 0) == ""
  {
    NoProjectsBareRoot(t);
    LeafMarkdown(t, 0, 0);
  }

  // ---------------------------------------------------------------------
  // writeGroupsToMarkdown
  // ---------------------------------------------------------------------

  /** The lines every group gets: a heading two deeper than its level, its
      full path and its URL. */
  function GroupEntry(g: Group, level: nat): string
  {
    Heading(level + 2, g.name) + ("- **Path:** " + g.fullPath + "\n") + ("- **URL:** " + g.webURL + "\n\n")
  }

  /** The text writeGroupsToMarkdown appends for one group: its entry, its
      project block when it has projects, its subgroups one level deeper when
      it has subgroups. */
  function GroupMarkdown(g: Group, level: nat): string
    decreases g
  {
    GroupEntry(g, level) + GroupProjects(g) + (if |g.subgroups| > 0 then GroupsMarkdown(g.subgroups, level + 1) else "")
  }

  /** The text of the groups, one after the other in slice order. */
  function GroupsMarkdown(gs: seq<Group>, level: nat): string
    decreases gs
  {
    if gs == [] then "" else GroupsMarkdown(gs[..|gs| - 1], level) + GroupMarkdown(gs[|gs| - 1], level)
  }

  /** writeGroupsToMarkdown: appends the text of the groups, in order, to
      `buffer`. */
  method WriteGroupsToMarkdown(buffer: string, groups: seq<Group>, level: nat) returns (out: string)
    ensures out == buffer + GroupsMarkdown(groups, level)
    decreases groups, 1
  {
    out := buffer;
    for k := 0 to |groups|
      invariant out == buffer + GroupsMarkdown(groups[..k], level)
    {
      Associative(buffer, GroupsMarkdown(groups[..k], level), GroupMarkdown(groups[k], level));
      out := WriteGroup(out, groups[k], level);
      TakeSnoc(groups, k);
    }
    assert groups[..|groups|] == groups;
  }

  /** The body of writeGroupsToMarkdown's loop: appends one group's text. */
  method WriteGroup(buffer: string, group: Group, level: nat) returns (out: string)
    ensures out == buffer + GroupMarkdown(group, level)
    decreases group, 0
  {
    var prefix := Repeat('#', level + 2);
    var heading := prefix + " " + group.name + "\n\n";
    var pathLine := "- **Path:** " + group.fullPath + "\n";
    var urlLine := "- **URL:** " + group.webURL + "\n\n";
    out := buffer + heading;
    out := out + pathLine;
    Associative(buffer, heading, pathLine);
    out := out + urlLine;
    Associative(buffer, heading + pathLine, urlLine);
    ghost var entry := out;
    assert entry == buffer + GroupEntry(group, level);
    if |group.projects| > 0 {
      out := out + "**Projects:**\n\n";
      out := WriteGroupProjectLines(out, group.projects);
      Associative(entry, "**Projects:**\n\n", GroupProjectLines(group.projects));
      Associative(entry, "**Projects:**\n\n" + GroupProjectLines(group.projects), "\n");
      out := out + "\n";
    }
    ghost var subs := out;
    assert subs == entry + GroupProjects(group);
    Associative(buffer, GroupEntry(group, level), GroupProjects(group));
    if |group.subgroups| > 0 {
      out := WriteGroupsToMarkdown(out, group.subgroups, level + 1);
      Associative(buffer, GroupEntry(group, level) + GroupProjects(group), GroupsMarkdown(group.subgroups, level + 1));
    }
  }

  /** Writing one more group after a slice appends its text. */
  lemma GroupsMarkdownSnoc(gs: seq<Group>, x: Group, level: nat)
    ensures GroupsMarkdown(gs + [x], level) == GroupsMarkdown(gs, level) + GroupMarkdown(x, level)
  {
    assert (gs + [x])[..|gs|] == gs;
  }

  /** Writing two slices one after the other writes their concatenation. */
  lemma {:induction false} GroupsMarkdownAppend(a: seq<Group>, b: seq<Group>, level: nat)
    ensures GroupsMarkdown(a + b, level) == GroupsMarkdown(a, level) + GroupsMarkdown(b, level)
    decreases |b|
  {
    if b == [] {
      assert a + b == a;
    } else {
      var front := b[..|b| - 1];
      var x := b[|b| - 1];
      assert b == front + [x];
      assert a + b == (a + front) + [x];
      GroupsMarkdownAppend(a, front, level);
      GroupsMarkdownSnoc(a + front, x, level);
      GroupsMarkdownSnoc(front, x, level);
      Associative(GroupsMarkdown(a, level), GroupsMarkdown(front, level), GroupMarkdown(x, level));
    }
  }

  /** A group with neither projects nor subgroups writes only its entry. */
  lemma BareGroupMarkdown(g: Group, level: nat)
    requires g.projects == [] && g.subgroups == []
    ensures GroupMarkdown(g, level) == GroupEntry(g, level)
  {
  }

  /** The text of gs[k] is part of the text of gs. */
  lemma GroupInGroups(gs: seq<Group>, k: nat, level: nat)
    requires k < |gs|
    ensures Infix(GroupMarkdown(gs[k], level), GroupsMarkdown(gs, level))
  {
    var upto := gs[..k + 1];
    assert upto[..k] == gs[..k];
    InfixEnd(GroupMarkdown(gs[k], level), GroupsMarkdown(gs[..k], level), GroupsMarkdown(upto, level));
    assert gs == upto + gs[k + 1..];
    GroupsMarkdownAppend(upto, gs[k + 1..], level);
    InfixFront(GroupMarkdown(gs[k], level), GroupsMarkdown(upto, level), GroupsMarkdown(gs[k + 1..], level),
               GroupsMarkdown(gs, level));
  }

  /** The project block of a group: empty without projects. */
  function GroupProjects(g: Group): string
  {
    if |g.projects| > 0 then "**Projects:**\n\n" + GroupProjectLines(g.projects) + "\n" else ""
  }

  /** Every group of the tree, at any depth, is written inside the text of
      the slice, one level deeper per step down. */
  lemma {:induction false} GroupShown(gs: seq<Group>, level: nat, p: seq<nat>, h: Group, target: nat)
    requires GroupWalks.At(gs, p) == Some(h) && target + 1 == level + |p|
    ensures Infix(GroupMarkdown(h, target), GroupsMarkdown(gs, level))
    decreases |p|
  {
    GroupInGroups(gs, p[0], level);
    if |p| == 1 {
      SameGroup(gs[p[0]], level, h, target, GroupsMarkdown(gs, level));
    } else {
      assert GroupWalks.At(gs[p[0]].subgroups, p[1..]) == Some(h);
      GroupShown(gs[p[0]].subgroups, level + 1, p[1..], h, target);
      SubgroupsShown(gs[p[0]], level);
      InfixChain(GroupMarkdown(h, target), GroupsMarkdown(gs[p[0]].subgroups, level + 1), GroupMarkdown(gs[p[0]], level),
                 GroupsMarkdown(gs, level));
    }
  }

  lemma SameGroup(g: Group, x: nat, h: Group, y: nat, s: string)
    requires Infix(GroupMarkdown(g, x), s) && g == h && x == y
    ensures Infix(GroupMarkdown(h, y), s)
  {
  }

  /** A group with subgroups writes them inside its own text. */
  lemma SubgroupsShown(g: Group, level: nat)
    requires |g.subgroups| > 0
    ensures Infix(GroupsMarkdown(g.subgroups, level + 1), GroupMarkdown(g, level))
  {
    InfixEnd(GroupsMarkdown(g.subgroups, level + 1), GroupEntry(g, level) + GroupProjects(g), GroupMarkdown(g, level));
  }

  /** A group's text starts with its entry and holds a line for each of its
      projects. */
  lemma GroupMarkdownHolds(g: Group, level: nat, q: Project)
    ensures Infix(GroupEntry(g, level), GroupMarkdown(g, level))
    ensures q in g.projects ==> Infix(GroupProjectLine(q), GroupMarkdown(g, level))
  {
    var e := GroupEntry(g, level);
    var rest := GroupProjects(g);
    var subs := if |g.subgroups| > 0 then GroupsMarkdown(g.subgroups, level + 1) else "";
    var whole := GroupMarkdown(g, level);
    assert whole == e + rest + subs;
    InfixStart(e, rest, e + rest);
    InfixFront(e, e + rest, subs, whole);
    if q in g.projects {
      var lines := GroupProjectLines(g.projects);
      GroupLineShown(g.projects, q);
      InfixMiddle(GroupProjectLine(q), "**Projects:**\n\n", lines, "\n", rest);
      InfixMiddle(GroupProjectLine(q), e, rest, subs, whole);
    }
  }

  /** The whole group export: every group of the tree at nesting depth d
      (its path has d + 1 indices) has its entry with a heading of
      level + d + 2 '#', and every one of its projects has its line. */
  lemma GroupsDownloadShows(gs: seq<Group>, level: nat, p: seq<nat>, h: Group, depth: nat, q: Project)
    requires GroupWalks.At(gs, p) == Some(h) && depth + 1 == level + |p|
    ensures Infix(GroupEntry(h, depth), GroupsMarkdown(gs, level))
    ensures q in h.projects ==> Infix(GroupProjectLine(q), GroupsMarkdown(gs, level))
  {
    GroupShown(gs, level, p, h, depth);
    GroupMarkdownHolds(h, depth, q);
    InfixTransitive(GroupEntry(h, depth), GroupMarkdown(h, depth), GroupsMarkdown(gs, level));
    if q in h.projects {
      InfixTransitive(GroupProjectLine(q), GroupMarkdown(h, depth), GroupsMarkdown(gs, level));
    }
  }
}
