/** buildProjectPathTree (handlers/structureDownload.go:55-113): the trie of
    project paths behind the project-structure download.

    The Go nodes are heap objects linked by `Children map[string]*PathNode`.
    Here they live in an arena, a sequence of nodes whose `children` maps a
    segment to the index of the child node; the root is node 0 and every child
    is created after, so has a larger index than, its parent. */
module PathTree {
  import opened Wrappers
  import opened Models
  import opened Strings

  datatype PathNode = PathNode(
    name: string,
    path: string,
    fullPath: string,
    isGroup: bool,
    projects: seq<CachedProject>,
    children: map<string, nat>)

  /** The root buildProjectPathTree starts from. */
  function RootNode(): PathNode
  {
    PathNode("Root", "", "", true, [], map[])
  }

  /** The child under `key` of node i was made for that segment: its name and
      path are the segment, it is a group, and its full path is the segment
      below the root and the parent's full path, '/', the segment elsewhere. */
  predicate ChildOK(t: seq<PathNode>, i: nat, key: string)
    requires i < |t| && key in t[i].children
  {
    var c := t[i].children[key];
    && i < c < |t|
    && t[c].name == key && t[c].path == key && t[c].isGroup
    && t[c].fullPath == (if i == 0 then key else t[i].fullPath + "/" + key)
  }

  /** The shape every tree the builder makes keeps. */
  predicate Valid(t: seq<PathNode>)
  {
    && |t| >= 1
    && t[0].name == "Root" && t[0].path == "" && t[0].fullPath == "" && t[0].isGroup
    && forall i, key :: 0 <= i < |t| && key in t[i].children ==> ChildOK(t, i, key)
  }

  /** The node reached from node n by following the segments `segs`. */
  function Lookup(t: seq<PathNode>, n: nat, segs: seq<string>): Option<nat>
    decreases |segs|
  {
    if segs == [] then Some(n)
    else if n < |t| && segs[0] in t[n].children then Lookup(t, t[n].children[segs[0]], segs[1..])
    else None
  }

  /** The segments of a project path that name groups: all but the last. */
  function Dirs(pathWithNamespace: string): seq<string>
  {
    var parts := Split(pathWithNamespace);
    parts[..|parts| - 1]
  }

  /** The node a project belongs on: the one its group segments lead to. */
  function Home(t: seq<PathNode>, p: CachedProject): Option<nat>
  {
    Lookup(t, 0, Dirs(p.pathWithNamespace))
  }

  /** The projects of `ps` whose home is node n, in input order. */
  function ProjectsAt(t: seq<PathNode>, ps: seq<CachedProject>, n: nat): seq<CachedProject>
  {
    if ps == [] then []
    else
      var p := ps[|ps| - 1];
      ProjectsAt(t, ps[..|ps| - 1], n) + (if Home(t, p) == Some(n) then [p] else [])
  }

  /** The number of projects held by the first k nodes. */
  function ProjectCount(t: seq<PathNode>, k: nat): nat
    requires k <= |t|
  {
    if k == 0 then 0 else ProjectCount(t, k - 1) + |t[k - 1].projects|
  }

  function TotalProjects(t: seq<PathNode>): nat
  {
    ProjectCount(t, |t|)
  }

  /** Node b is node a grown: same identity, more children (none replaced),
      more projects appended. */
  predicate Kept(a: PathNode, b: PathNode)
  {
    && b.name == a.name && b.path == a.path && b.fullPath == a.fullPath && b.isGroup == a.isGroup
    && a.projects <= b.projects
    && forall k :: k in a.children ==> k in b.children && b.children[k] == a.children[k]
  }

  /** t' extends t: every node of t is still there, grown. */
  predicate Grows(t: seq<PathNode>, t': seq<PathNode>)
  {
    |t| <= |t'| && forall i :: 0 <= i < |t| ==> Kept(t[i], t'[i])
  }

  lemma TakeSnoc<T>(s: seq<T>, i: nat)
    requires i < |s|
    ensures s[..i + 1] == s[..i] + [s[i]]
    ensures s[..i + 1][..i] == s[..i]
  {
  }

  lemma GrowsTransitive(t0: seq<PathNode>, t1: seq<PathNode>, t2: seq<PathNode>)
    requires Grows(t0, t1) && Grows(t1, t2)
    ensures Grows(t0, t2)
  {
    forall i | 0 <= i < |t0|
      ensures Kept(t0[i], t2[i])
    {
      assert Kept(t0[i], t1[i]) && Kept(t1[i], t2[i]);
    }
  }

  /** Node n is where the first k group segments of project p lead from
      the root, for some k >= 1. */
  predicate OnDirs(t: seq<PathNode>, p: CachedProject, n: nat)
  {
    exists k: nat :: 1 <= k <= |Dirs(p.pathWithNamespace)| &&
      Lookup(t, 0, Dirs(p.pathWithNamespace)[..k]) == Some(n)
  }

  /** Node n lies on the group segments of some project of `ps`. */
  predicate OnGroupPath(t: seq<PathNode>, ps: seq<CachedProject>, n: nat)
  {
    exists j: nat :: j < |ps| && OnDirs(t, ps[j], n)
  }

  /** Node n is where a non-empty prefix of the first i segments of
      `parts`, all of them group segments, leads. */
  predicate PrefixLeadsTo(t: seq<PathNode>, parts: seq<string>, i: nat, n: nat)
  {
    exists k: nat :: 1 <= k <= i && k < |parts| && Lookup(t, 0, parts[..k]) == Some(n)
  }

  /** Every node t' has beyond those of t is reached by such a prefix. */
  predicate FreshOnPath(t: seq<PathNode>, t': seq<PathNode>, parts: seq<string>, i: nat)
  {
    forall n: nat :: |t| <= n < |t'| ==> PrefixLeadsTo(t', parts, i, n)
  }

  /** The projects node n had in t, or none for a node t did not have. */
  function Before(t: seq<PathNode>, n: nat): seq<CachedProject>
  {
    if n < |t| then t[n].projects else []
  }

  // ---------------------------------------------------------------------
  // Lemmas about lookups
  // ---------------------------------------------------------------------

  /** A path that leads somewhere still leads there after the tree grows. */
  lemma {:induction false} LookupGrows(t: seq<PathNode>, t': seq<PathNode>, n: nat, segs: seq<string>)
    requires Grows(t, t')
    requires Lookup(t, n, segs).Some?
    ensures Lookup(t', n, segs) == Lookup(t, n, segs)
    decreases |segs|
  {
    if segs != [] {
      LookupGrows(t, t', t[n].children[segs[0]], segs[1..]);
    }
  }

  /** A lookup from an existing node stays inside the tree and never goes
      back to an earlier node. */
  lemma {:induction false} LookupBound(t: seq<PathNode>, n: nat, segs: seq<string>)
    requires Valid(t) && n < |t|
    requires Lookup(t, n, segs).Some?
    ensures n <= Lookup(t, n, segs).value < |t|
    ensures segs != [] ==> n < Lookup(t, n, segs).value
    decreases |segs|
  {
    if segs != [] {
      assert ChildOK(t, n, segs[0]);
      LookupBound(t, t[n].children[segs[0]], segs[1..]);
    }
  }

  /** Following one more segment is one more child step. */
  lemma {:induction false} LookupSnoc(t: seq<PathNode>, n: nat, segs: seq<string>, key: string)
    ensures Lookup(t, n, segs + [key]) ==
      match Lookup(t, n, segs)
      case Some(c) => if c < |t| && key in t[c].children then Some(t[c].children[key]) else None
      case None => None
    decreases |segs|
  {
    if segs != [] {
      assert (segs + [key])[0] == segs[0] && (segs + [key])[1..] == segs[1..] + [key];
      if n < |t| && segs[0] in t[n].children {
        LookupSnoc(t, t[n].children[segs[0]], segs[1..], key);
      }
    } else {
      assert ([key])[1..] == [];
    }
  }

  /** The node a non-empty list of segments leads to from the root is named
      after the last segment, and its full path is the segments joined with
      '/'. */
  lemma {:induction false} LookupFullPath(t: seq<PathNode>, segs: seq<string>)
    requires Valid(t)
    requires segs != [] && Lookup(t, 0, segs).Some?
    ensures Lookup(t, 0, segs).value < |t|
    ensures t[Lookup(t, 0, segs).value].fullPath == Join(segs)
    ensures t[Lookup(t, 0, segs).value].name == segs[|segs| - 1]
    decreases |segs|
  {
    var init := segs[..|segs| - 1];
    var key := segs[|segs| - 1];
    assert segs == init + [key];
    LookupSnoc(t, 0, init, key);
    var c := Lookup(t, 0, init).value;
    LookupBound(t, 0, init);
    assert ChildOK(t, c, key);
    if init != [] {
      LookupFullPath(t, init);
      JoinSnoc(init, key);
    }
  }

  /** A project whose path has no '/' belongs on the root. */
  lemma TopLevelHome(t: seq<PathNode>, p: CachedProject)
    requires '/' !in p.pathWithNamespace
    ensures Home(t, p) == Some(0)
  {
    SplitNoSlash(p.pathWithNamespace);
  }

  /** A project whose path has a '/' belongs on the node whose full path is
      its namespace, everything before the last '/'. */
  lemma HomeFullPath(t: seq<PathNode>, p: CachedProject)
    requires Valid(t) && Home(t, p).Some?
    requires '/' in p.pathWithNamespace
    ensures Home(t, p).value < |t|
    ensures t[Home(t, p).value].fullPath == p.pathWithNamespace[..LastSlash(p.pathWithNamespace)]
  {
    var segs := Dirs(p.pathWithNamespace);
    JoinDropLast(p.pathWithNamespace);
    assert Join(segs) == p.pathWithNamespace[..LastSlash(p.pathWithNamespace)];
    LookupFullPath(t, segs);
  }

  // ---------------------------------------------------------------------
  // Lemmas about the project lists
  // ---------------------------------------------------------------------

  /** Growing the tree does not move a project whose home already exists. */
  lemma {:induction false} ProjectsAtGrows(t: seq<PathNode>, t': seq<PathNode>, ps: seq<CachedProject>, n: nat)
    requires Grows(t, t')
    requires forall j :: 0 <= j < |ps| ==> Home(t, ps[j]).Some?
    ensures ProjectsAt(t', ps, n) == ProjectsAt(t, ps, n)
  {
    if ps != [] {
      ProjectsAtGrows(t, t', ps[..|ps| - 1], n);
      LookupGrows(t, t', 0, Dirs(ps[|ps| - 1].pathWithNamespace));
    }
  }

  /** No project's home is a node the tree does not have yet. */
  lemma {:induction false} ProjectsAtBeyond(t: seq<PathNode>, ps: seq<CachedProject>, n: nat)
    requires Valid(t) && n >= |t|
    requires forall j :: 0 <= j < |ps| ==> Home(t, ps[j]).Some?
    ensures ProjectsAt(t, ps, n) == []
  {
    if ps != [] {
      ProjectsAtBeyond(t, ps[..|ps| - 1], n);
      LookupBound(t, 0, Dirs(ps[|ps| - 1].pathWithNamespace));
    }
  }

  /** Adding one project to node m and empty nodes at the end adds one to
      the count. */
  lemma {:induction false} CountGrows(t: seq<PathNode>, t': seq<PathNode>, m: nat, k: nat)
    requires |t| <= |t'| && m < |t'| && k <= |t'|
    requires forall n :: 0 <= n < |t'| ==> |t'[n].projects| == |Before(t, n)| + (if n == m then 1 else 0)
    ensures ProjectCount(t', k) == (if k <= |t| then ProjectCount(t, k) else TotalProjects(t)) + (if m < k then 1 else 0)
  {
    if k > 0 {
      CountGrows(t, t', m, k - 1);
    }
  }

  // ---------------------------------------------------------------------
  // The builder
  // ---------------------------------------------------------------------

  /** The child of `current` for segment `part`, created with full path
      `fullPath` when there is none; an existing child is reused. */
  method ChildFor(t: seq<PathNode>, current: nat, part: string, fullPath: string) returns (t': seq<PathNode>, child: nat)
    requires Valid(t) && current < |t|
    requires fullPath == (if current == 0 then part else t[current].fullPath + "/" + part)
    ensures Valid(t') && Grows(t, t')
    ensures part in t'[current].children && child == t'[current].children[part]
    ensures part in t[current].children ==> t' == t
    ensures part !in t[current].children ==>
      |t'| == |t| + 1 && child == |t| && t'[child] == PathNode(part, part, fullPath, true, [], map[])
    ensures forall n :: 0 <= n < |t'| ==> t'[n].projects == Before(t, n)
  {
    t' := t;
    if part !in t[current].children {
      var node := PathNode(part, part, fullPath, true, [], map[]);
      t' := t + [node];
      t' := t'[current := t'[current].(children := t'[current].children[part := |t|])];
      NewChildValid(t, current, part, fullPath);
    }
    child := t'[current].children[part];
  }

  /** Adding a fresh node for a missing segment keeps the tree valid, grows
      it by that node only, and moves no project. */
  lemma NewChildValid(t: seq<PathNode>, current: nat, part: string, fullPath: string)
    requires Valid(t) && current < |t| && part !in t[current].children
    requires fullPath == (if current == 0 then part else t[current].fullPath + "/" + part)
    ensures var t1 := t + [PathNode(part, part, fullPath, true, [], map[])];
      var t' := t1[current := t1[current].(children := t1[current].children[part := |t|])];
      Valid(t') && Grows(t, t') && |t'| == |t| + 1 &&
      part in t'[current].children && t'[current].children[part] == |t| &&
      t'[|t|] == PathNode(part, part, fullPath, true, [], map[]) &&
      forall n :: 0 <= n < |t'| ==> t'[n].projects == Before(t, n)
  {
    var t1 := t + [PathNode(part, part, fullPath, true, [], map[])];
    var t' := t1[current := t1[current].(children := t1[current].children[part := |t|])];
    forall i, key | 0 <= i < |t'| && key in t'[i].children
      ensures ChildOK(t', i, key)
    {
      if i != current || key != part {
        assert ChildOK(t, i, key);
      }
    }
    assert Grows(t, t') by {
      forall i | 0 <= i < |t|
        ensures Kept(t[i], t'[i])
      {
      }
    }
  }

  /** Appends the project to node `current`. */
  method AddProject(t: seq<PathNode>, current: nat, project: CachedProject) returns (t': seq<PathNode>)
    requires Valid(t) && current < |t|
    ensures Valid(t') && Grows(t, t') && |t'| == |t|
    ensures forall n :: 0 <= n < |t'| ==> t'[n].projects == t[n].projects + (if n == current then [project] else [])
  {
    t' := t[current := t[current].(projects := t[current].projects + [project])];
    assert forall i, key :: 0 <= i < |t'| && key in t'[i].children ==> ChildOK(t', i, key) by {
      forall i, key | 0 <= i < |t'| && key in t'[i].children
        ensures ChildOK(t', i, key)
      {
        assert ChildOK(t, i, key);
      }
    }
  }

  /** The state of the inner loop before segment i: `current` is the node
      the first i segments lead to, its full path is those segments joined,
      and no project has been added yet. */
  predicate Walking(t: seq<PathNode>, t': seq<PathNode>, parts: seq<string>, i: nat, current: nat)
  {
    && Valid(t') && Grows(t, t') && current < |t'| && i < |parts|
    && Lookup(t', 0, parts[..i]) == Some(current)
    && t'[current].fullPath == Join(parts[..i]) && (current == 0 <==> i == 0)
    && forall n :: 0 <= n < |t'| ==> t'[n].projects == Before(t, n)
  }

  /** The state after the inner loop: the project has been appended to the
      node its group segments lead to, and nowhere else. */
  predicate Inserted(t: seq<PathNode>, t': seq<PathNode>, parts: seq<string>, project: CachedProject, current: nat)
    requires parts != []
  {
    && Valid(t') && Grows(t, t') && current < |t'|
    && Lookup(t', 0, parts[..|parts| - 1]) == Some(current)
    && forall n :: 0 <= n < |t'| ==> t'[n].projects == Before(t, n) + (if n == current then [project] else [])
  }

  /** A group segment moves the walk one node down. */
  lemma WalkStep(t: seq<PathNode>, t1: seq<PathNode>, t2: seq<PathNode>, parts: seq<string>, i: nat,
                 current: nat, child: nat)
    requires Walking(t, t1, parts, i, current) && i + 1 < |parts|
    requires Valid(t2) && Grows(t1, t2)
    requires parts[i] in t2[current].children && child == t2[current].children[parts[i]]
    requires forall n :: 0 <= n < |t2| ==> t2[n].projects == Before(t1, n)
    ensures Walking(t, t2, parts, i + 1, child)
  {
    var part := parts[i];
    GrowsTransitive(t, t1, t2);
    LookupGrows(t1, t2, 0, parts[..i]);
    LookupSnoc(t2, 0, parts[..i], part);
    TakeSnoc(parts, i);
    assert ChildOK(t2, current, part);
    if i > 0 {
      JoinSnoc(parts[..i], part);
    }
    forall n | 0 <= n < |t2|
      ensures t2[n].projects == Before(t, n)
    {
      if n < |t1| {
        assert t1[n].projects == Before(t, n);
      } else {
        assert n >= |t|;
      }
    }
  }

  /** The last segment appends the project to the node reached. */
  lemma ProjectStep(t: seq<PathNode>, t1: seq<PathNode>, t2: seq<PathNode>, parts: seq<string>,
                    project: CachedProject, i: nat, current: nat)
    requires i + 1 == |parts| && Walking(t, t1, parts, i, current)
    requires Valid(t2) && Grows(t1, t2) && |t2| == |t1|
    requires forall n :: 0 <= n < |t2| ==> t2[n].projects == t1[n].projects + (if n == current then [project] else [])
    ensures Inserted(t, t2, parts, project, current)
  {
    GrowsTransitive(t, t1, t2);
    LookupGrows(t1, t2, 0, parts[..|parts| - 1]);
  }

  /** The running full path of the inner loop is the segments so far,
      joined; it is what a new child of `current` gets. */
  lemma FullPathStep(t: seq<PathNode>, t': seq<PathNode>, parts: seq<string>, i: nat, current: nat,
                     previous: string, fullPath: string)
    requires Walking(t, t', parts, i, current)
    requires 0 < i ==> previous == Join(parts[..i])
    requires fullPath == if i > 0 then previous + "/" + parts[i] else parts[i]
    ensures fullPath == Join(parts[..i + 1])
    ensures fullPath == (if current == 0 then parts[i] else t'[current].fullPath + "/" + parts[i])
  {
    TakeSnoc(parts, i);
    if i > 0 {
      JoinSnoc(parts[..i], parts[i]);
    } else {
      assert parts[..1] == [parts[i]];
    }
  }

  /** One pass of the outer loop: walks the project's group segments from
      the root, creating missing nodes, and appends the project to the node
      reached. */
  method InsertProject(t: seq<PathNode>, project: CachedProject) returns (t': seq<PathNode>)
    requires Valid(t)
    ensures Valid(t') && Grows(t, t')
    ensures Home(t', project).Some?
    ensures forall n :: 0 <= n < |t'| ==>
      t'[n].projects == Before(t, n) + (if Home(t', project) == Some(n) then [project] else [])
    ensures forall n: nat :: |t| <= n < |t'| ==> OnDirs(t', project, n)
  {
    var parts := Split(project.pathWithNamespace);
    var current;
    t', current := WalkSegments(t, parts, project);
    InsertedHome(t, t', project, current);
    FreshAreDirs(t, t', project);
  }

  /** The inner loop: visits every segment of `parts` from the root. */
  method WalkSegments(t: seq<PathNode>, parts: seq<string>, project: CachedProject)
    returns (t': seq<PathNode>, current: nat)
    requires Valid(t) && parts != []
    ensures Inserted(t, t', parts, project, current)
    ensures FreshOnPath(t, t', parts, |parts|)
  {
    t' := t;
    current := 0;
    var fullPath := "";
    for i := 0 to |parts|
      invariant InnerLoop(t, t', parts, project, i, current, fullPath)
      invariant FreshOnPath(t, t', parts, i)
    {
      t', current, fullPath := VisitSegment(t, t', parts, project, i, current, fullPath);
    }
  }

  /** The nodes the walk made are reached by prefixes of the group segments. */
  lemma FreshAreDirs(t: seq<PathNode>, t': seq<PathNode>, project: CachedProject)
    requires FreshOnPath(t, t', Split(project.pathWithNamespace), |Split(project.pathWithNamespace)|)
    ensures forall n: nat :: |t| <= n < |t'| ==> OnDirs(t', project, n)
  {
    var parts := Split(project.pathWithNamespace);
    var dirs := Dirs(project.pathWithNamespace);
    forall n: nat | n < |t'| && |t| <= n
      ensures OnDirs(t', project, n)
    {
      assert PrefixLeadsTo(t', parts, |parts|, n);
      var k: nat :| 1 <= k <= |parts| && k < |parts| && Lookup(t', 0, parts[..k]) == Some(n);
      assert dirs[..k] == parts[..k];
    }
  }

  /** One segment of the walk adds at most the node its prefix leads to. */
  lemma FreshStep(t: seq<PathNode>, t0: seq<PathNode>, t': seq<PathNode>, parts: seq<string>, i: nat)
    requires FreshOnPath(t, t0, parts, i) && Grows(t0, t') && |t| <= |t0|
    requires |t'| == |t0| || (|t'| == |t0| + 1 && i + 1 < |parts| && Lookup(t', 0, parts[..i + 1]) == Some(|t0|))
    ensures FreshOnPath(t, t', parts, i + 1)
  {
    var next := i + 1;
    forall n: nat | n < |t'| && |t| <= n
      ensures PrefixLeadsTo(t', parts, next, n)
    {
      if n < |t0| {
        assert PrefixLeadsTo(t0, parts, i, n);
        var k: nat :| 1 <= k <= i && k < |parts| && Lookup(t0, 0, parts[..k]) == Some(n);
        LookupGrows(t0, t', 0, parts[..k]);
      } else {
        assert Lookup(t', 0, parts[..i + 1]) == Some(n);
      }
    }
  }

  /** The invariant of the inner loop of buildProjectPathTree before
      segment i. */
  predicate InnerLoop(t: seq<PathNode>, t': seq<PathNode>, parts: seq<string>, project: CachedProject,
                      i: nat, current: nat, fullPath: string)
  {
    && parts != [] && i <= |parts|
    && (i < |parts| ==> Walking(t, t', parts, i, current))
    && (0 < i ==> fullPath == Join(parts[..i]))
    && (i == |parts| ==> Inserted(t, t', parts, project, current))
  }

  /** The body of the inner loop for segment i: extends the running full
      path, then either appends the project (last segment) or moves to the
      child for the segment, creating it if missing. */
  method VisitSegment(t: seq<PathNode>, t0: seq<PathNode>, parts: seq<string>, project: CachedProject,
                      i: nat, current0: nat, fullPath0: string)
    returns (t': seq<PathNode>, current: nat, fullPath: string)
    requires i < |parts| && InnerLoop(t, t0, parts, project, i, current0, fullPath0)
    requires FreshOnPath(t, t0, parts, i)
    ensures InnerLoop(t, t', parts, project, i + 1, current, fullPath)
    ensures FreshOnPath(t, t', parts, i + 1)
  {
    var part := parts[i];
    if i > 0 {
      fullPath := fullPath0 + "/" + part;
    } else {
      fullPath := part;
    }
    FullPathStep(t, t0, parts, i, current0, fullPath0, fullPath);
    var isProject := i == |parts| - 1;
    if isProject {
      t', current := VisitProjectSegment(t, t0, parts, project, i, current0, fullPath);
    } else {
      t', current := VisitGroupSegment(t, t0, parts, project, i, current0, fullPath);
    }
    FreshStep(t, t0, t', parts, i);
  }

  /** The last segment names the project: it is appended to `current`. */
  method VisitProjectSegment(t: seq<PathNode>, t0: seq<PathNode>, parts: seq<string>, project: CachedProject,
                             i: nat, current0: nat, fullPath: string)
    returns (t': seq<PathNode>, current: nat)
    requires i + 1 == |parts| && Walking(t, t0, parts, i, current0)
    requires fullPath == Join(parts[..i + 1])
    ensures InnerLoop(t, t', parts, project, i + 1, current, fullPath)
    ensures Grows(t0, t') && |t'| == |t0|
  {
    t' := AddProject(t0, current0, project);
    current := current0;
    ProjectStep(t, t0, t', parts, project, i, current);
    LastSegmentDone(t, t', parts, project, i, current, fullPath);
  }

  /** A group segment: the walk moves to the child for it, created with
      full path `fullPath` when missing. */
  method VisitGroupSegment(t: seq<PathNode>, t0: seq<PathNode>, parts: seq<string>, project: CachedProject,
                           i: nat, current0: nat, fullPath: string)
    returns (t': seq<PathNode>, current: nat)
    requires i + 1 < |parts| && Walking(t, t0, parts, i, current0)
    requires fullPath == Join(parts[..i + 1])
    requires fullPath == (if current0 == 0 then parts[i] else t0[current0].fullPath + "/" + parts[i])
    ensures InnerLoop(t, t', parts, project, i + 1, current, fullPath)
    ensures Grows(t0, t')
    ensures |t'| == |t0| || (|t'| == |t0| + 1 && Lookup(t', 0, parts[..i + 1]) == Some(|t0|))
  {
    t', current := ChildFor(t0, current0, parts[i], fullPath);
    WalkStep(t, t0, t', parts, i, current0, current);
    GroupSegmentDone(t, t', parts, project, i, current, fullPath);
  }

  /** The loop invariant after the last segment. */
  lemma LastSegmentDone(t: seq<PathNode>, t': seq<PathNode>, parts: seq<string>, project: CachedProject,
                        i: nat, current: nat, fullPath: string)
    requires i + 1 == |parts| && Inserted(t, t', parts, project, current)
    requires fullPath == Join(parts[..i + 1])
    ensures InnerLoop(t, t', parts, project, i + 1, current, fullPath)
  {
  }

  /** The loop invariant after a group segment. */
  lemma GroupSegmentDone(t: seq<PathNode>, t': seq<PathNode>, parts: seq<string>, project: CachedProject,
                         i: nat, current: nat, fullPath: string)
    requires i + 1 < |parts| && Walking(t, t', parts, i + 1, current)
    requires fullPath == Join(parts[..i + 1])
    ensures InnerLoop(t, t', parts, project, i + 1, current, fullPath)
  {
  }

  /** After the inner loop the project's home is the node reached. */
  lemma InsertedHome(t: seq<PathNode>, t': seq<PathNode>, project: CachedProject, current: nat)
    requires Inserted(t, t', Split(project.pathWithNamespace), project, current)
    ensures Valid(t') && Grows(t, t')
    ensures Home(t', project) == Some(current)
    ensures forall n :: 0 <= n < |t'| ==>
      t'[n].projects == Before(t, n) + (if Home(t', project) == Some(n) then [project] else [])
  {
    var parts := Split(project.pathWithNamespace);
    assert Dirs(project.pathWithNamespace) == parts[..|parts| - 1];
    assert Home(t', project) == Some(current);
  }

  /** The state of the outer loop after i projects. */
  predicate Built(t: seq<PathNode>, projects: seq<CachedProject>, i: nat)
    requires i <= |projects|
  {
    && Valid(t)
    && (forall j :: 0 <= j < i ==> Home(t, projects[j]).Some?)
    && (forall n :: 0 <= n < |t| ==> t[n].projects == ProjectsAt(t, projects[..i], n))
    && TotalProjects(t) == i
    && (forall n: nat :: 0 < n < |t| ==> OnGroupPath(t, projects[..i], n))
  }

  /** Inserting project i keeps every earlier project where it was. */
  lemma BuildStep(before: seq<PathNode>, t: seq<PathNode>, projects: seq<CachedProject>, i: nat)
    requires i < |projects| && Built(before, projects, i)
    requires Valid(t) && Grows(before, t) && Home(t, projects[i]).Some?
    requires forall n :: 0 <= n < |t| ==>
      t[n].projects == Before(before, n) + (if Home(t, projects[i]) == Some(n) then [projects[i]] else [])
    requires forall n: nat :: |before| <= n < |t| ==> OnDirs(t, projects[i], n)
    ensures Built(t, projects, i + 1)
  {
    BuildStepHomes(before, t, projects, i);
    BuildStepLists(before, t, projects, i);
    BuildCount(before, t, projects[i]);
    BuildStepSpanned(before, t, projects, i, i + 1);
  }

  /** After inserting project i every node but the root still lies on the
      group segments of one of the first i + 1 projects. */
  lemma BuildStepSpanned(before: seq<PathNode>, t: seq<PathNode>, projects: seq<CachedProject>, i: nat, next: nat)
    requires i < |projects| && next == i + 1 && Grows(before, t)
    requires forall n: nat :: 0 < n < |before| ==> OnGroupPath(before, projects[..i], n)
    requires forall n: nat :: |before| <= n < |t| ==> OnDirs(t, projects[i], n)
    ensures forall n: nat :: 0 < n < |t| ==> OnGroupPath(t, projects[..next], n)
  {
    var done := projects[..next];
    forall n: nat | 0 < n < |t|
      ensures OnGroupPath(t, done, n)
    {
      if n < |before| {
        assert OnGroupPath(before, projects[..i], n);
        var j: nat :| j < i && OnDirs(before, projects[..i][j], n);
        var p := projects[j];
        var k: nat :| 1 <= k <= |Dirs(p.pathWithNamespace)| && Lookup(before, 0, Dirs(p.pathWithNamespace)[..k]) == Some(n);
        LookupGrows(before, t, 0, Dirs(p.pathWithNamespace)[..k]);
        assert OnDirs(t, done[j], n);
      } else {
        assert OnDirs(t, done[i], n);
      }
    }
  }

  /** Inserting project i keeps every earlier project's home. */
  lemma BuildStepHomes(before: seq<PathNode>, t: seq<PathNode>, projects: seq<CachedProject>, i: nat)
    requires i < |projects| && Grows(before, t) && Home(t, projects[i]).Some?
    requires forall j :: 0 <= j < i ==> Home(before, projects[j]).Some?
    ensures forall j :: 0 <= j < i + 1 ==> Home(t, projects[j]).Some?
  {
    forall j | 0 <= j < i
      ensures Home(t, projects[j]).Some?
    {
      LookupGrows(before, t, 0, Dirs(projects[j].pathWithNamespace));
    }
  }

  /** Inserting project i gives every node the projects of the first i + 1
      that belong on it. */
  lemma BuildStepLists(before: seq<PathNode>, t: seq<PathNode>, projects: seq<CachedProject>, i: nat)
    requires i < |projects| && Built(before, projects, i)
    requires Grows(before, t)
    requires forall n :: 0 <= n < |t| ==>
      t[n].projects == Before(before, n) + (if Home(t, projects[i]) == Some(n) then [projects[i]] else [])
    ensures forall n :: 0 <= n < |t| ==> t[n].projects == ProjectsAt(t, projects[..i + 1], n)
  {
    forall n | 0 <= n < |t|
      ensures t[n].projects == ProjectsAt(t, projects[..i + 1], n)
    {
      BuildStepAt(before, t, projects, i, n);
    }
  }

  /** Inserting one project adds one to the total. */
  lemma BuildCount(before: seq<PathNode>, t: seq<PathNode>, p: CachedProject)
    requires Valid(t) && |before| <= |t| && Home(t, p).Some?
    requires forall n :: 0 <= n < |t| ==>
      t[n].projects == Before(before, n) + (if Home(t, p) == Some(n) then [p] else [])
    ensures TotalProjects(t) == TotalProjects(before) + 1
  {
    var m := Home(t, p).value;
    LookupBound(t, 0, Dirs(p.pathWithNamespace));
    forall n | 0 <= n < |t|
      ensures |t[n].projects| == |Before(before, n)| + (if n == m then 1 else 0)
    {
    }
    CountOne(before, t, m);
  }

  /** One more project on node m and nothing else: one more in total. */
  lemma CountOne(before: seq<PathNode>, t: seq<PathNode>, m: nat)
    requires |before| <= |t| && m < |t|
    requires forall n :: 0 <= n < |t| ==> |t[n].projects| == |Before(before, n)| + (if n == m then 1 else 0)
    ensures TotalProjects(t) == TotalProjects(before) + 1
  {
    CountGrows(before, t, m, |t|);
  }

  /** BuildStep for the project list of one node. */
  lemma BuildStepAt(before: seq<PathNode>, t: seq<PathNode>, projects: seq<CachedProject>, i: nat, n: nat)
    requires i < |projects| && n < |t|
    requires Valid(before) && Grows(before, t)
    requires forall j :: 0 <= j < i ==> Home(before, projects[j]).Some?
    requires n < |before| ==> before[n].projects == ProjectsAt(before, projects[..i], n)
    requires t[n].projects == Before(before, n) + (if Home(t, projects[i]) == Some(n) then [projects[i]] else [])
    ensures t[n].projects == ProjectsAt(t, projects[..i + 1], n)
  {
    TakeSnoc(projects, i);
    ProjectsAtGrows(before, t, projects[..i], n);
    if n >= |before| {
      ProjectsAtBeyond(before, projects[..i], n);
    }
  }

  /** With no projects, a tree meeting the builder's postconditions is the
      bare root. */
  lemma NoProjectsBareRoot(t: seq<PathNode>)
    requires Valid(t)
    requires forall n :: 0 <= n < |t| ==> t[n].projects == ProjectsAt(t, [], n)
    requires forall n: nat :: 0 < n < |t| ==> OnGroupPath(t, [], n)
    ensures t == [RootNode()]
  {
    OnlyRoot(t);
    assert t[0].projects == ProjectsAt(t, [], 0) == [];
  }

  /** No node lies on a group path of an empty project list. */
  lemma NotOnNoPath(t: seq<PathNode>, n: nat)
    ensures !OnGroupPath(t, [], n)
  {
  }

  /** A valid tree in which every node but the root would have to lie on
      the group path of a project, when there are no projects, is the root
      alone, without children. */
  lemma OnlyRoot(t: seq<PathNode>)
    requires Valid(t)
    requires forall n: nat :: 0 < n < |t| ==> OnGroupPath(t, [], n)
    ensures |t| == 1 && t[0].children == map[]
  {
    if |t| > 1 {
      NotOnNoPath(t, 1);
      assert false;
    }
    forall key | key in t[0].children
      ensures false
    {
      assert false;
    }
  }

  /** buildProjectPathTree: a root named "Root" with empty path and full
      path, and every project appended, in input order, to the node its
      group segments lead to; every project lands on exactly one node. */
  method BuildProjectPathTree(projects: seq<CachedProject>) returns (t: seq<PathNode>)
    ensures Valid(t)
    ensures forall j :: 0 <= j < |projects| ==> Home(t, projects[j]).Some?
    ensures forall n :: 0 <= n < |t| ==> t[n].projects == ProjectsAt(t, projects, n)
    ensures TotalProjects(t) == |projects|
    ensures forall n: nat :: 0 < n < |t| ==> OnGroupPath(t, projects, n)
  {
    t := [RootNode()];
    for i := 0 to |projects|
      invariant Built(t, projects, i)
    {
      ghost var before := t;
      t := InsertProject(t, projects[i]);
      BuildStep(before, t, projects, i);
    }
    assert projects[..|projects|] == projects;
  }
}
