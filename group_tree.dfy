/** buildNestedGroupTree (handlers/settings.go:289-388): the settings page's
    nested group tree, rebuilt from the flat group and project caches.

    Go structs are values: `group` in the third loop is a copy of the
    `groupByID` entry, which no loop updates, and the last loop replaces each
    root by its `groupByPath` entry, which has received subgroups but never
    projects or levels. The model keeps exactly that, so the returned roots
    carry no projects and Level 0, each attached subgroup has no subgroups of
    its own, and groups two or more levels below a root are dropped. */
module GroupTree {
  import opened Wrappers
  import opened Models
  import opened Strings
  import GroupWalks

  // ---------------------------------------------------------------------
  // Records made from cache rows
  // ---------------------------------------------------------------------

  /** The Group the first loop makes of a cached group: no subgroups, no
      projects, Level 0, no children, expanded. */
  function NewGroup(cg: CachedGroup): Group
  {
    Group(cg.id, cg.name, cg.path, cg.fullPath, cg.webURL, cg.parentID,
          [], [], 0, false, true, false)
  }

  /** The Project the second loop makes of a cached project. Namespace.ID is
      the project's group ID and Namespace.Path the project's own Path, as
      the code assigns them. */
  function NewProject(cp: CachedProject): Project
  {
    Project(cp.id, cp.name, cp.nameWithNamespace, cp.path, cp.pathWithNamespace,
            cp.webURL, cp.groupID, cp.path, false, 0)
  }

  // ---------------------------------------------------------------------
  // The first loop: groupByID and groupByPath
  // ---------------------------------------------------------------------

  function GroupsByID(cgs: seq<CachedGroup>): map<int, Group>
  {
    if cgs == [] then map[]
    else
      var cg := cgs[|cgs| - 1];
      GroupsByID(cgs[..|cgs| - 1])[cg.id := NewGroup(cg)]
  }

  function GroupsByPath(cgs: seq<CachedGroup>): map<string, Group>
  {
    if cgs == [] then map[]
    else
      var cg := cgs[|cgs| - 1];
      GroupsByPath(cgs[..|cgs| - 1])[cg.fullPath := NewGroup(cg)]
  }

  /** Every group's ID is a key of groupByID. */
  predicate Known(cs: seq<CachedGroup>, byID: map<int, Group>)
  {
    forall k :: 0 <= k < |cs| ==> cs[k].id in byID
  }

  lemma {:induction false} IDsKnown(cgs: seq<CachedGroup>)
    ensures Known(cgs, GroupsByID(cgs))
  {
    if cgs != [] {
      IDsKnown(cgs[..|cgs| - 1]);
    }
  }

  predicate DistinctIDs(cgs: seq<CachedGroup>)
  {
    forall a, b :: 0 <= a < b < |cgs| ==> cgs[a].id != cgs[b].id
  }

  predicate DistinctPaths(cgs: seq<CachedGroup>)
  {
    forall a, b :: 0 <= a < b < |cgs| ==> cgs[a].fullPath != cgs[b].fullPath
  }

  /** With distinct IDs, groupByID maps each group's ID to that group. */
  lemma GroupsByIDAt(cgs: seq<CachedGroup>, j: nat)
    requires DistinctIDs(cgs) && j < |cgs|
    ensures cgs[j].id in GroupsByID(cgs) && GroupsByID(cgs)[cgs[j].id] == NewGroup(cgs[j])
  {
    GroupsByIDLast(cgs, j);
  }

  /** The keys of groupByPath are exactly the groups' full paths. */
  lemma {:induction false} GroupsByPathKeys(cgs: seq<CachedGroup>, pp: string)
    ensures pp in GroupsByPath(cgs) <==> exists k :: 0 <= k < |cgs| && cgs[k].fullPath == pp
  {
    if cgs != [] {
      var init := cgs[..|cgs| - 1];
      GroupsByPathKeys(init, pp);
      if exists k :: 0 <= k < |init| && init[k].fullPath == pp {
        var k :| 0 <= k < |init| && init[k].fullPath == pp;
        assert cgs[k].fullPath == pp;
      }
      if exists k :: 0 <= k < |cgs| && cgs[k].fullPath == pp {
        var k :| 0 <= k < |cgs| && cgs[k].fullPath == pp;
        if k < |init| {
          assert init[k].fullPath == pp;
        }
      }
    }
  }

  /** groupByID maps a group's ID to the group when no later group has the
      same ID: the last write wins. */
  lemma {:induction false} GroupsByIDLast(cgs: seq<CachedGroup>, j: nat)
    requires j < |cgs|
    requires forall k :: j < k < |cgs| ==> cgs[k].id != cgs[j].id
    ensures cgs[j].id in GroupsByID(cgs) && GroupsByID(cgs)[cgs[j].id] == NewGroup(cgs[j])
  {
    if j < |cgs| - 1 {
      GroupsByIDLast(cgs[..|cgs| - 1], j);
    }
  }

  /** groupByPath maps a group's FullPath to the group when no later group
      has the same FullPath: the last write wins. */
  lemma {:induction false} GroupsByPathLast(cgs: seq<CachedGroup>, j: nat)
    requires j < |cgs|
    requires forall k :: j < k < |cgs| ==> cgs[k].fullPath != cgs[j].fullPath
    ensures cgs[j].fullPath in GroupsByPath(cgs) && GroupsByPath(cgs)[cgs[j].fullPath] == NewGroup(cgs[j])
  {
    if j < |cgs| - 1 {
      GroupsByPathLast(cgs[..|cgs| - 1], j);
    }
  }

  /** With distinct full paths, groupByPath maps each group's FullPath to
      that group. */
  lemma GroupsByPathAt(cgs: seq<CachedGroup>, j: nat)
    requires DistinctPaths(cgs) && j < |cgs|
    ensures cgs[j].fullPath in GroupsByPath(cgs) && GroupsByPath(cgs)[cgs[j].fullPath] == NewGroup(cgs[j])
  {
    GroupsByPathLast(cgs, j);
  }

  // ---------------------------------------------------------------------
  // The second loop: projectsByPath
  // ---------------------------------------------------------------------

  /** The bucket key the code computes: the pieces of PathWithNamespace
      without the last one, joined again, or "" for a single piece. */
  function BucketKey(pathWithNamespace: string): string
  {
    var parts := Split(pathWithNamespace);
    if |parts| > 1 then Join(parts[..|parts| - 1]) else ""
  }

  /** The namespace of a project path: everything before the last '/', or ""
      when there is none. */
  function Namespace(pathWithNamespace: string): string
  {
    if '/' in pathWithNamespace then pathWithNamespace[..LastSlash(pathWithNamespace)] else ""
  }

  /** The split-and-join of the code computes the namespace. */
  lemma BucketKeyIsNamespace(pathWithNamespace: string)
    ensures BucketKey(pathWithNamespace) == Namespace(pathWithNamespace)
  {
    if '/' in pathWithNamespace {
      JoinDropLast(pathWithNamespace);
    }
  }

  function Buckets(cps: seq<CachedProject>): map<string, seq<Project>>
  {
    if cps == [] then map[]
    else
      var m := Buckets(cps[..|cps| - 1]);
      var cp := cps[|cps| - 1];
      var key := BucketKey(cp.pathWithNamespace);
      m[key := (if key in m then m[key] else []) + [NewProject(cp)]]
  }

  /** The projects whose namespace is `key`, in input order. */
  function ProjectsUnder(cps: seq<CachedProject>, key: string): seq<Project>
  {
    if cps == [] then []
    else
      var cp := cps[|cps| - 1];
      ProjectsUnder(cps[..|cps| - 1], key) +
        (if Namespace(cp.pathWithNamespace) == key then [NewProject(cp)] else [])
  }

  /** projectsByPath has a bucket for `key` iff some project's namespace is
      `key`, and that bucket holds exactly those projects in input order. */
  lemma {:induction false} BucketsAreFilters(cps: seq<CachedProject>, key: string)
    ensures key in Buckets(cps) <==> ProjectsUnder(cps, key) != []
    ensures key in Buckets(cps) ==> Buckets(cps)[key] == ProjectsUnder(cps, key)
  {
    if cps != [] {
      BucketsAreFilters(cps[..|cps| - 1], key);
      BucketKeyIsNamespace(cps[|cps| - 1].pathWithNamespace);
    }
  }

  // ---------------------------------------------------------------------
  // The third loop: roots and attached subgroups
  // ---------------------------------------------------------------------

  /** The state of the third loop: rootGroups and groupByPath. */
  datatype Pass = Pass(roots: seq<Group>, byPath: map<string, Group>)

  /** `group` in the third loop: the groupByID entry with the projects of the
      group's own FullPath bucket, if there is one. */
  function Filled(cg: CachedGroup, byID: map<int, Group>, buckets: map<string, seq<Project>>): Group
    requires cg.id in byID
  {
    var g := byID[cg.id];
    if cg.fullPath in buckets then g.(projects := buckets[cg.fullPath], hasChildren := true) else g
  }

  /** The path of the group a group is attached to: the FullPath before its
      last '/', when that '/' is not the first character. */
  function ParentPath(fullPath: string): Option<string>
  {
    var k := LastSlash(fullPath);
    if k > 0 then Some(fullPath[..k]) else None
  }

  /** One iteration of the third loop. */
  function Step(p: Pass, cg: CachedGroup, byID: map<int, Group>, buckets: map<string, seq<Project>>): Pass
    requires cg.id in byID
  {
    var group := Filled(cg, byID, buckets);
    if '/' !in cg.fullPath then Pass(p.roots + [group], p.byPath)
    else
      match ParentPath(cg.fullPath)
      case Some(pp) =>
        if pp in p.byPath then
          var parent := p.byPath[pp];
          Pass(p.roots, p.byPath[pp := parent.(subgroups := parent.subgroups + [group], hasChildren := true)])
        else p
      case None => p
  }

  /** The third loop over `cs`. */
  function Placed(cs: seq<CachedGroup>, byID: map<int, Group>, buckets: map<string, seq<Project>>,
                  byPath0: map<string, Group>): Pass
    requires Known(cs, byID)
  {
    if cs == [] then Pass([], byPath0)
    else
      var init := cs[..|cs| - 1];
      Step(Placed(init, byID, buckets, byPath0), cs[|cs| - 1], byID, buckets)
  }

  // ---------------------------------------------------------------------
  // The whole function
  // ---------------------------------------------------------------------

  /** The final loop: each root replaced by its groupByPath entry. */
  function Overwrite(roots: seq<Group>, byPath: map<string, Group>): (r: seq<Group>)
    ensures |r| == |roots|
  {
    seq(|roots|, i requires 0 <= i < |roots| =>
      if roots[i].fullPath in byPath then byPath[roots[i].fullPath] else roots[i])
  }

  /** The result of buildNestedGroupTree(cgs, cps). */
  function NestedGroupTree(cgs: seq<CachedGroup>, cps: seq<CachedProject>): seq<Group>
  {
    var byID := GroupsByID(cgs);
    IDsKnown(cgs);
    var pass := Placed(cgs, byID, Buckets(cps), GroupsByPath(cgs));
    Overwrite(GroupWalks.WithLevels(pass.roots, 0), pass.byPath)
  }

  method BuildNestedGroupTree(cachedGroups: seq<CachedGroup>, cachedProjects: seq<CachedProject>)
    returns (rootGroups: seq<Group>)
    ensures rootGroups == NestedGroupTree(cachedGroups, cachedProjects)
  {
    var groupByID, groupByPath := IndexGroups(cachedGroups);
    var projectsByPath := BucketProjects(cachedProjects);
    IDsKnown(cachedGroups);
    rootGroups, groupByPath := PlaceGroups(cachedGroups, groupByID, projectsByPath, groupByPath);
    rootGroups := GroupWalks.SetGroupLevels(rootGroups, 0);
    rootGroups := OverwriteRoots(rootGroups, groupByPath);
  }

  /** The first loop of buildNestedGroupTree. */
  method IndexGroups(cachedGroups: seq<CachedGroup>)
    returns (groupByID: map<int, Group>, groupByPath: map<string, Group>)
    ensures groupByID == GroupsByID(cachedGroups)
    ensures groupByPath == GroupsByPath(cachedGroups)
  {
    groupByID := map[];
    groupByPath := map[];
    for i := 0 to |cachedGroups|
      invariant groupByID == GroupsByID(cachedGroups[..i])
      invariant groupByPath == GroupsByPath(cachedGroups[..i])
    {
      var cg := cachedGroups[i];
      var group := NewGroup(cg);
      groupByID := groupByID[group.id := group];
      groupByPath := groupByPath[group.fullPath := group];
      assert cachedGroups[..i + 1][..i] == cachedGroups[..i];
    }
    assert cachedGroups[..|cachedGroups|] == cachedGroups;
  }

  /** The second loop of buildNestedGroupTree. */
  method BucketProjects(cachedProjects: seq<CachedProject>) returns (projectsByPath: map<string, seq<Project>>)
    ensures projectsByPath == Buckets(cachedProjects)
  {
    projectsByPath := map[];
    for i := 0 to |cachedProjects|
      invariant projectsByPath == Buckets(cachedProjects[..i])
    {
      var cp := cachedProjects[i];
      var project := NewProject(cp);
      var parts := Split(cp.pathWithNamespace);
      var groupPath := "";
      if |parts| > 1 {
        groupPath := Join(parts[..|parts| - 1]);
      }
      var bucket := if groupPath in projectsByPath then projectsByPath[groupPath] else [];
      projectsByPath := projectsByPath[groupPath := bucket + [project]];
      assert cachedProjects[..i + 1][..i] == cachedProjects[..i];
    }
    assert cachedProjects[..|cachedProjects|] == cachedProjects;
  }

  /** The third loop of buildNestedGroupTree. */
  method PlaceGroups(cachedGroups: seq<CachedGroup>, groupByID: map<int, Group>,
                     projectsByPath: map<string, seq<Project>>, byPath0: map<string, Group>)
    returns (rootGroups: seq<Group>, groupByPath: map<string, Group>)
    requires Known(cachedGroups, groupByID)
    ensures Pass(rootGroups, groupByPath) == Placed(cachedGroups, groupByID, projectsByPath, byPath0)
  {
    rootGroups := [];
    groupByPath := byPath0;
    for i := 0 to |cachedGroups|
      invariant Pass(rootGroups, groupByPath) == Placed(cachedGroups[..i], groupByID, projectsByPath, byPath0)
    {
      var cg := cachedGroups[i];
      var group := groupByID[cg.id];
      if cg.fullPath in projectsByPath {
        group := group.(projects := projectsByPath[cg.fullPath], hasChildren := true);
      }
      if '/' !in cg.fullPath {
        rootGroups := rootGroups + [group];
      } else {
        var lastSlashIndex := LastSlash(cg.fullPath);
        if lastSlashIndex > 0 {
          var parentPath := cg.fullPath[..lastSlashIndex];
          if parentPath in groupByPath {
            var parent := groupByPath[parentPath];
            parent := parent.(subgroups := parent.subgroups + [group], hasChildren := true);
            groupByPath := groupByPath[parentPath := parent];
          }
        }
      }
      assert cachedGroups[..i + 1][..i] == cachedGroups[..i];
    }
    assert cachedGroups[..|cachedGroups|] == cachedGroups;
  }

  /** The last loop of buildNestedGroupTree. */
  method OverwriteRoots(roots: seq<Group>, groupByPath: map<string, Group>) returns (rootGroups: seq<Group>)
    ensures rootGroups == Overwrite(roots, groupByPath)
  {
    rootGroups := roots;
    for i := 0 to |rootGroups|
      invariant |rootGroups| == |roots|
      invariant forall k :: 0 <= k < i ==> rootGroups[k] == Overwrite(roots, groupByPath)[k]
      invariant forall k :: i <= k < |rootGroups| ==> rootGroups[k] == roots[k]
    {
      var group := rootGroups[i];
      if group.fullPath in groupByPath {
        rootGroups := rootGroups[i := groupByPath[group.fullPath]];
      }
    }
  }

  // ---------------------------------------------------------------------
  // What the result is, declaratively
  // ---------------------------------------------------------------------

  /** The groups whose FullPath has no '/', in input order. */
  function TopLevel(cs: seq<CachedGroup>): seq<CachedGroup>
  {
    if cs == [] then []
    else
      var c := cs[|cs| - 1];
      TopLevel(cs[..|cs| - 1]) + (if '/' !in c.fullPath then [c] else [])
  }

  /** The groups attached below the group at `pp`, in input order. */
  function ChildrenOf(cs: seq<CachedGroup>, pp: string): seq<CachedGroup>
  {
    if cs == [] then []
    else
      var c := cs[|cs| - 1];
      ChildrenOf(cs[..|cs| - 1], pp) + (if ParentPath(c.fullPath) == Some(pp) then [c] else [])
  }

  function FilledAll(cs: seq<CachedGroup>, byID: map<int, Group>, buckets: map<string, seq<Project>>): (r: seq<Group>)
    requires forall c :: c in cs ==> c.id in byID
    ensures |r| == |cs|
  {
    if cs == [] then []
    else FilledAll(cs[..|cs| - 1], byID, buckets) + [Filled(cs[|cs| - 1], byID, buckets)]
  }

  lemma {:induction false} FilledAllAt(cs: seq<CachedGroup>, byID: map<int, Group>, buckets: map<string, seq<Project>>)
    requires forall c :: c in cs ==> c.id in byID
    ensures forall k :: 0 <= k < |cs| ==> FilledAll(cs, byID, buckets)[k] == Filled(cs[k], byID, buckets)
  {
    if cs != [] {
      var init := cs[..|cs| - 1];
      assert forall c :: c in init ==> c in cs;
      FilledAllAt(init, byID, buckets);
    }
  }

  lemma {:induction false} TopLevelMembers(cs: seq<CachedGroup>)
    ensures forall c :: c in TopLevel(cs) ==> c in cs && '/' !in c.fullPath
  {
    if cs != [] {
      TopLevelMembers(cs[..|cs| - 1]);
    }
  }

  lemma {:induction false} ChildrenOfMembers(cs: seq<CachedGroup>, pp: string)
    ensures forall c :: c in ChildrenOf(cs, pp) ==> c in cs && ParentPath(c.fullPath) == Some(pp)
  {
    if cs != [] {
      ChildrenOfMembers(cs[..|cs| - 1], pp);
    }
  }

  /** The third loop never adds or removes a key of groupByPath. */
  lemma {:induction false} PlacedKeys(cs: seq<CachedGroup>, byID: map<int, Group>,
                                      buckets: map<string, seq<Project>>, byPath0: map<string, Group>)
    requires Known(cs, byID)
    ensures Placed(cs, byID, buckets, byPath0).byPath.Keys == byPath0.Keys
  {
    if cs != [] {
      PlacedKeys(cs[..|cs| - 1], byID, buckets, byPath0);
    }
  }

  /** The third loop collects the top-level groups as roots, in input order. */
  lemma {:induction false} PlacedRoots(cs: seq<CachedGroup>, byID: map<int, Group>,
                                       buckets: map<string, seq<Project>>, byPath0: map<string, Group>)
    requires Known(cs, byID)
    ensures forall c :: c in TopLevel(cs) ==> c.id in byID
    ensures Placed(cs, byID, buckets, byPath0).roots == FilledAll(TopLevel(cs), byID, buckets)
  {
    TopLevelMembers(cs);
    if cs != [] {
      var init := cs[..|cs| - 1];
      var c := cs[|cs| - 1];
      PlacedRoots(init, byID, buckets, byPath0);
      if '/' !in c.fullPath {
        var t := TopLevel(init) + [c];
        assert t[..|t| - 1] == TopLevel(init);
      } else {
        assert TopLevel(cs) == TopLevel(init);
      }
    }
  }

  /** One iteration of the third loop appends `group` to the entry of `pp`
      iff the group's parent path is `pp`, and leaves it alone otherwise. */
  lemma StepEntry(p: Pass, c: CachedGroup, byID: map<int, Group>, buckets: map<string, seq<Project>>, pp: string)
    requires c.id in byID && pp in p.byPath
    ensures pp in Step(p, c, byID, buckets).byPath
    ensures Step(p, c, byID, buckets).byPath[pp] ==
      if ParentPath(c.fullPath) == Some(pp) then
        p.byPath[pp].(subgroups := p.byPath[pp].subgroups + [Filled(c, byID, buckets)], hasChildren := true)
      else p.byPath[pp]
  {
    if '/' !in c.fullPath {
      assert LastSlash(c.fullPath) == -1;
    }
  }

  /** A groupByPath entry `g0` after the groups `kids` have been appended to
      it. */
  function Attached(g0: Group, kids: seq<CachedGroup>, byID: map<int, Group>,
                    buckets: map<string, seq<Project>>): Group
    requires forall c :: c in kids ==> c.id in byID
  {
    g0.(subgroups := g0.subgroups + FilledAll(kids, byID, buckets), hasChildren := g0.hasChildren || kids != [])
  }

  lemma AttachedSnoc(g0: Group, kids: seq<CachedGroup>, c: CachedGroup, byID: map<int, Group>,
                     buckets: map<string, seq<Project>>)
    requires forall x :: x in kids ==> x.id in byID
    requires c.id in byID
    ensures forall x :: x in kids + [c] ==> x.id in byID
    ensures Attached(g0, kids + [c], byID, buckets) ==
      var g := Attached(g0, kids, byID, buckets);
      g.(subgroups := g.subgroups + [Filled(c, byID, buckets)], hasChildren := true)
  {
    var all := kids + [c];
    assert all[..|all| - 1] == kids;
    assert g0.subgroups + FilledAll(kids, byID, buckets) + [Filled(c, byID, buckets)]
      == g0.subgroups + FilledAll(all, byID, buckets);
  }

  /** Every group of `cs` has its ID in byID. */
  lemma KnownMembers(cs: seq<CachedGroup>, byID: map<int, Group>)
    requires Known(cs, byID)
    ensures forall c :: c in cs ==> c.id in byID
  {
  }

  /** The third loop appends to the groupByPath entry of `pp` exactly the
      groups whose parent path is `pp`, in input order. */
  lemma {:induction false} PlacedEntry(cs: seq<CachedGroup>, byID: map<int, Group>,
                                       buckets: map<string, seq<Project>>, byPath0: map<string, Group>, pp: string)
    requires Known(cs, byID)
    requires pp in byPath0
    ensures forall c :: c in ChildrenOf(cs, pp) ==> c.id in byID
    ensures pp in Placed(cs, byID, buckets, byPath0).byPath
    ensures Placed(cs, byID, buckets, byPath0).byPath[pp] == Attached(byPath0[pp], ChildrenOf(cs, pp), byID, buckets)
  {
    ChildrenOfMembers(cs, pp);
    KnownMembers(cs, byID);
    PlacedKeys(cs, byID, buckets, byPath0);
    if cs == [] {
      assert byPath0[pp].subgroups + [] == byPath0[pp].subgroups;
    } else {
      var init := cs[..|cs| - 1];
      var c := cs[|cs| - 1];
      PlacedEntry(init, byID, buckets, byPath0, pp);
      PlacedKeys(init, byID, buckets, byPath0);
      var before := Placed(init, byID, buckets, byPath0);
      StepEntry(before, c, byID, buckets, pp);
      if ParentPath(c.fullPath) == Some(pp) {
        assert ChildrenOf(cs, pp) == ChildrenOf(init, pp) + [c];
        AttachedSnoc(byPath0[pp], ChildrenOf(init, pp), c, byID, buckets);
      } else {
        assert ChildrenOf(cs, pp) == ChildrenOf(init, pp);
      }
    }
  }

  /** A root keeps the FullPath of its group through setGroupLevels. */
  lemma RootPathsKept(roots: seq<Group>, i: nat)
    requires i < |roots|
    ensures GroupWalks.WithLevels(roots, 0)[i].fullPath == roots[i].fullPath
  {
  }

  /** buildNestedGroupTree returns one root per group whose FullPath has no
      '/', in input order. */
  lemma RootsCount(cgs: seq<CachedGroup>, cps: seq<CachedProject>)
    ensures |NestedGroupTree(cgs, cps)| == |TopLevel(cgs)|
  {
    IDsKnown(cgs);
    PlacedRoots(cgs, GroupsByID(cgs), Buckets(cps), GroupsByPath(cgs));
  }

  /** A subgroup as buildNestedGroupTree attaches it: its own group with the
      projects of its namespace, children iff it has projects, and never
      subgroups of its own. */
  function ChildGroup(c: CachedGroup, cps: seq<CachedProject>): Group
  {
    var ps := ProjectsUnder(cps, c.fullPath);
    NewGroup(c).(projects := ps, hasChildren := ps != [])
  }

  function ChildGroups(cs: seq<CachedGroup>, cps: seq<CachedProject>): (r: seq<Group>)
    ensures |r| == |cs|
  {
    if cs == [] then []
    else ChildGroups(cs[..|cs| - 1], cps) + [ChildGroup(cs[|cs| - 1], cps)]
  }

  /** A root as buildNestedGroupTree returns it: its own group, expanded, at
      Level 0, without projects, with the groups directly below it. */
  function RootGroup(c: CachedGroup, cgs: seq<CachedGroup>, cps: seq<CachedProject>): Group
  {
    var kids := ChildGroups(ChildrenOf(cgs, c.fullPath), cps);
    NewGroup(c).(subgroups := kids, hasChildren := kids != [])
  }

  /** Reference definition of the returned roots. */
  function ExpectedRoots(cgs: seq<CachedGroup>, cps: seq<CachedProject>): (r: seq<Group>)
    ensures |r| == |TopLevel(cgs)|
  {
    var top := TopLevel(cgs);
    seq(|top|, i requires 0 <= i < |top| => RootGroup(top[i], cgs, cps))
  }

  /** With distinct IDs, `group` in the third loop is the attached form of
      the cached group. */
  lemma FilledIsChild(cgs: seq<CachedGroup>, cps: seq<CachedProject>, c: CachedGroup)
    requires DistinctIDs(cgs) && c in cgs
    ensures c.id in GroupsByID(cgs)
    ensures Filled(c, GroupsByID(cgs), Buckets(cps)) == ChildGroup(c, cps)
  {
    var j :| 0 <= j < |cgs| && cgs[j] == c;
    GroupsByIDAt(cgs, j);
    BucketsAreFilters(cps, c.fullPath);
  }

  lemma {:induction false} FilledAllAreChildren(cgs: seq<CachedGroup>, cps: seq<CachedProject>, xs: seq<CachedGroup>)
    requires DistinctIDs(cgs)
    requires forall x :: x in xs ==> x in cgs
    ensures forall x :: x in xs ==> x.id in GroupsByID(cgs)
    ensures FilledAll(xs, GroupsByID(cgs), Buckets(cps)) == ChildGroups(xs, cps)
  {
    IDsKnown(cgs);
    forall x | x in xs
      ensures x.id in GroupsByID(cgs)
    {
      FilledIsChild(cgs, cps, x);
    }
    if xs != [] {
      var init := xs[..|xs| - 1];
      assert forall x :: x in init ==> x in xs;
      FilledAllAreChildren(cgs, cps, init);
      FilledIsChild(cgs, cps, xs[|xs| - 1]);
    }
  }

  /** The root at index i of the result, with distinct IDs and paths. */
  lemma NestedRootAt(cgs: seq<CachedGroup>, cps: seq<CachedProject>, i: nat)
    requires DistinctIDs(cgs) && DistinctPaths(cgs)
    requires i < |TopLevel(cgs)|
    ensures i < |NestedGroupTree(cgs, cps)|
    ensures NestedGroupTree(cgs, cps)[i] == RootGroup(TopLevel(cgs)[i], cgs, cps)
  {
    var byID := GroupsByID(cgs);
    var buckets := Buckets(cps);
    var byPath0 := GroupsByPath(cgs);
    IDsKnown(cgs);
    var pass := Placed(cgs, byID, buckets, byPath0);
    var c := TopLevel(cgs)[i];
    var entry := pass.byPath[c.fullPath] by {
      assert c.fullPath in pass.byPath by {
        TopLevelMembers(cgs);
        assert c in TopLevel(cgs);
        var j :| 0 <= j < |cgs| && cgs[j] == c;
        GroupsByPathAt(cgs, j);
        PlacedKeys(cgs, byID, buckets, byPath0);
      }
    }
    assert NestedGroupTree(cgs, cps)[i] == entry by {
      PlacedRoots(cgs, byID, buckets, byPath0);
      RootsCount(cgs, cps);
      TopLevelMembers(cgs);
      FilledAllAt(TopLevel(cgs), byID, buckets);
      assert pass.roots[i] == Filled(c, byID, buckets);
      RootPathsKept(pass.roots, i);
      assert Filled(c, byID, buckets).fullPath == c.fullPath by {
        TopLevelMembers(cgs);
        assert c in TopLevel(cgs);
        FilledIsChild(cgs, cps, c);
      }
    }
    assert entry == RootGroup(c, cgs, cps) by {
      TopLevelMembers(cgs);
      assert c in TopLevel(cgs);
      var j :| 0 <= j < |cgs| && cgs[j] == c;
      GroupsByPathAt(cgs, j);
      var kids := ChildrenOf(cgs, c.fullPath);
      PlacedEntry(cgs, byID, buckets, byPath0, c.fullPath);
      ChildrenOfMembers(cgs, c.fullPath);
      FilledAllAreChildren(cgs, cps, kids);
      assert [] + ChildGroups(kids, cps) == ChildGroups(kids, cps);
    }
  }

  /** With distinct IDs and distinct full paths (a database primary key and
      GitLab's unique group path), buildNestedGroupTree returns one root per
      top-level group in input order; each root is its group, expanded, at
      Level 0, with no projects and with the groups directly below it as
      subgroups in input order; each of those carries its namespace's
      projects and no subgroups, so deeper groups are lost. */
  lemma NestedGroupTreeIsExpected(cgs: seq<CachedGroup>, cps: seq<CachedProject>)
    requires DistinctIDs(cgs) && DistinctPaths(cgs)
    ensures NestedGroupTree(cgs, cps) == ExpectedRoots(cgs, cps)
  {
    RootsCount(cgs, cps);
    forall i | 0 <= i < |TopLevel(cgs)|
      ensures NestedGroupTree(cgs, cps)[i] == ExpectedRoots(cgs, cps)[i]
    {
      NestedRootAt(cgs, cps, i);
    }
  }

  /** The field-by-field reading of NestedGroupTreeIsExpected. */
  lemma NestedRootFields(cgs: seq<CachedGroup>, cps: seq<CachedProject>, i: nat)
    requires DistinctIDs(cgs) && DistinctPaths(cgs)
    requires i < |NestedGroupTree(cgs, cps)|
    ensures i < |TopLevel(cgs)|
    ensures var g := NestedGroupTree(cgs, cps)[i];
      var c := TopLevel(cgs)[i];
      && g.id == c.id && g.fullPath == c.fullPath
      && g.level == 0 && g.expanded && g.projects == []
      && (g.hasChildren <==> g.subgroups != [])
      && (forall k :: 0 <= k < |g.subgroups| ==>
            g.subgroups[k].subgroups == [] &&
            g.subgroups[k].projects == ProjectsUnder(cps, g.subgroups[k].fullPath) &&
            (g.subgroups[k].hasChildren <==> g.subgroups[k].projects != []) &&
            ParentPath(g.subgroups[k].fullPath) == Some(c.fullPath))
  {
    NestedGroupTreeIsExpected(cgs, cps);
    var c := TopLevel(cgs)[i];
    var kids := ChildrenOf(cgs, c.fullPath);
    ChildrenOfMembers(cgs, c.fullPath);
    ChildGroupsAt(kids, cps);
  }

  lemma {:induction false} ChildGroupsAt(cs: seq<CachedGroup>, cps: seq<CachedProject>)
    ensures forall k :: 0 <= k < |cs| ==> ChildGroups(cs, cps)[k] == ChildGroup(cs[k], cps)
  {
    if cs != [] {
      ChildGroupsAt(cs[..|cs| - 1], cps);
    }
  }

  /** No group of the result lies two or more levels below a root. */
  lemma NoGrandchildren(cgs: seq<CachedGroup>, cps: seq<CachedProject>, p: seq<nat>)
    requires DistinctIDs(cgs) && DistinctPaths(cgs)
    requires |p| >= 3
    ensures GroupWalks.At(NestedGroupTree(cgs, cps), p) == None
  {
    var r := NestedGroupTree(cgs, cps);
    if p[0] < |r| {
      NestedRootFields(cgs, cps, p[0]);
      var subs := r[p[0]].subgroups;
      assert GroupWalks.At(r, p) == GroupWalks.At(subs, p[1..]);
      if p[1] < |subs| {
        assert GroupWalks.At(subs, p[1..]) == GroupWalks.At(subs[p[1]].subgroups, p[2..]);
      }
    }
  }
}
