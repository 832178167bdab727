/** The three recursive walks over the settings page's group tree
    (handlers/settings.go, setGroupLevels, updateGroupExpandState and
    markSelectedProjects) and the request glue that decides the arguments of
    the expand/collapse walk.

    Go overwrites fields of slice elements in place. The model treats every
    Subgroups and Projects slice as unshared, so each walk is a method that
    returns the updated forest, specified by a function of the old forest.
    Two groups can share a Subgroups slice only when two cached groups have
    the same full path. Nodes of a
    forest are addressed by index paths: [i] is gs[i], [i, j] is
    gs[i].subgroups[j], and so on. */
module GroupWalks {
  import opened Wrappers
  import opened Models
  import Strconv

  // ---------------------------------------------------------------------
  // Addressing nodes
  // ---------------------------------------------------------------------

  /** The group at index path `p`, if there is one. */
  function At(gs: seq<Group>, p: seq<nat>): Option<Group>
    decreases |p|
  {
    if p == [] || p[0] >= |gs| then None
    else if |p| == 1 then Some(gs[p[0]])
    else At(gs[p[0]].subgroups, p[1..])
  }

  /** `q` comes before `p` in pre-order: it is a proper ancestor of `p`, or it
      branches off to an earlier sibling. */
  predicate PreorderBefore(q: seq<nat>, p: seq<nat>)
  {
    (|q| < |p| && q == p[..|q|]) ||
    (exists k :: 0 <= k < |q| && k < |p| && q[..k] == p[..k] && q[k] < p[k])
  }

  // ---------------------------------------------------------------------
  // setGroupLevels (settings.go:391-403)
  // ---------------------------------------------------------------------

  function ProjectsAtLevel(ps: seq<Project>, level: int): seq<Project>
  {
    seq(|ps|, j requires 0 <= j < |ps| => ps[j].(level := level))
  }

  /** The forest after setGroupLevels(gs, level). */
  function WithLevels(gs: seq<Group>, level: int): (r: seq<Group>)
    ensures |r| == |gs|
  {
    seq(|gs|, i requires 0 <= i < |gs| => Leveled(gs[i], level))
  }

  function Leveled(g: Group, level: int): Group
  {
    g.(level := level,
       projects := ProjectsAtLevel(g.projects, level + 1),
       subgroups := WithLevels(g.subgroups, level + 1))
  }

  method SetGroupLevels(groups: seq<Group>, level: int) returns (result: seq<Group>)
    ensures result == WithLevels(groups, level)
  {
    result := groups;
    for i := 0 to |groups|
      invariant |result| == |groups|
      invariant forall k :: 0 <= k < i ==> result[k] == Leveled(groups[k], level)
      invariant forall k :: i <= k < |groups| ==> result[k] == groups[k]
    {
      var g := result[i].(level := level);
      var projects := g.projects;
      for j := 0 to |projects|
        invariant |projects| == |g.projects|
        invariant forall k :: 0 <= k < j ==> projects[k] == g.projects[k].(level := level + 1)
        invariant forall k :: j <= k < |projects| ==> projects[k] == g.projects[k]
      {
        projects := projects[j := projects[j].(level := level + 1)];
      }
      var subgroups := SetGroupLevels(g.subgroups, level + 1);
      result := result[i := g.(projects := projects, subgroups := subgroups)];
    }
  }

  /** setGroupLevels(gs, L) gives the group at depth k (index path of length
      k + 1) the level L + k and each of its projects L + k + 1, keeps every
      node where it was, and changes nothing else. */
  lemma {:induction false} LevelsByDepth(gs: seq<Group>, level: int, p: seq<nat>)
    ensures At(WithLevels(gs, level), p).Some? == At(gs, p).Some?
    ensures At(gs, p).Some? ==>
      var g := At(gs, p).value;
      var g' := At(WithLevels(gs, level), p).value;
      && g'.level == level + |p| - 1
      && |g'.projects| == |g.projects|
      && (forall j :: 0 <= j < |g.projects| ==> g'.projects[j] == g.projects[j].(level := level + |p|))
      && |g'.subgroups| == |g.subgroups|
      && g'.(level := g.level, projects := g.projects, subgroups := g.subgroups) == g
    decreases |p|
  {
    if p != [] && p[0] < |gs| && |p| > 1 {
      LevelsByDepth(gs[p[0]].subgroups, level + 1, p[1..]);
    }
  }

  // ---------------------------------------------------------------------
  // updateGroupExpandState (settings.go:406-420)
  // ---------------------------------------------------------------------

  /** Some group of the forest, at any depth, has ID `id`. */
  predicate HasID(gs: seq<Group>, id: int)
  {
    exists i :: 0 <= i < |gs| && (gs[i].id == id || HasID(gs[i].subgroups, id))
  }

  /** The pre-order search of updateGroupExpandState from sibling index i on:
      the path of the first group with ID `id`. */
  function FirstFrom(gs: seq<Group>, id: int, i: nat): Option<seq<nat>>
    decreases gs, |gs| - i
  {
    if i >= |gs| then None
    else if gs[i].id == id then Some([i])
    else
      match FirstFrom(gs[i].subgroups, id, 0)
      case Some(q) => Some([i] + q)
      case None => FirstFrom(gs, id, i + 1)
  }

  /** The forest after updateGroupExpandState has searched it from sibling
      index i on: the first group with ID `id` has its Expanded set to `e`. */
  function ExpandFrom(gs: seq<Group>, id: int, e: bool, i: nat): (r: seq<Group>)
    ensures |r| == |gs|
    decreases gs, |gs| - i
  {
    if i >= |gs| then gs
    else if gs[i].id == id then gs[i := gs[i].(expanded := e)]
    else if HasID(gs[i].subgroups, id) then gs[i := gs[i].(subgroups := ExpandFrom(gs[i].subgroups, id, e, 0))]
    else ExpandFrom(gs, id, e, i + 1)
  }

  function FirstWithID(gs: seq<Group>, id: int): Option<seq<nat>>
  {
    FirstFrom(gs, id, 0)
  }

  function Expand(gs: seq<Group>, id: int, e: bool): seq<Group>
  {
    ExpandFrom(gs, id, e, 0)
  }

  method UpdateGroupExpandState(groups: seq<Group>, targetID: int, expanded: bool)
    returns (found: bool, result: seq<Group>)
    ensures found == HasID(groups, targetID)
    ensures result == Expand(groups, targetID, expanded)
  {
    result := groups;
    var i := 0;
    while i < |groups|
      invariant 0 <= i <= |groups|
      invariant ExpandFrom(groups, targetID, expanded, i) == Expand(groups, targetID, expanded)
      invariant forall k :: 0 <= k < i ==> groups[k].id != targetID && !HasID(groups[k].subgroups, targetID)
    {
      if groups[i].id == targetID {
        result := groups[i := groups[i].(expanded := expanded)];
        return true, result;
      }
      var subFound, subResult := UpdateGroupExpandState(groups[i].subgroups, targetID, expanded);
      if subFound {
        result := groups[i := groups[i].(subgroups := subResult)];
        return true, result;
      }
      i := i + 1;
    }
    found := false;
    ExpandMissing(groups, targetID, expanded, 0);
  }

  /** When no group from sibling index i on has ID `id`, nothing changes. */
  lemma {:induction false} ExpandMissing(gs: seq<Group>, id: int, e: bool, i: nat)
    requires forall k :: i <= k < |gs| ==> gs[k].id != id && !HasID(gs[k].subgroups, id)
    ensures ExpandFrom(gs, id, e, i) == gs
    decreases |gs| - i
  {
    if i < |gs| {
      ExpandMissing(gs, id, e, i + 1);
    }
  }

  /** updateGroupExpandState returns false, and leaves the tree unchanged, iff
      no group in the tree has the ID. */
  lemma ExpandNotFound(gs: seq<Group>, id: int, e: bool)
    requires !HasID(gs, id)
    ensures Expand(gs, id, e) == gs
  {
    ExpandMissing(gs, id, e, 0);
  }

  /** The search finds a path exactly when some group has the ID, and the
      group at that path has it. */
  lemma {:induction false} FirstFromFound(gs: seq<Group>, id: int, i: nat)
    ensures FirstFrom(gs, id, i).Some? <==>
      exists k :: i <= k < |gs| && (gs[k].id == id || HasID(gs[k].subgroups, id))
    ensures FirstFrom(gs, id, i).Some? ==>
      var p := FirstFrom(gs, id, i).value;
      p != [] && i <= p[0] && At(gs, p).Some? && At(gs, p).value.id == id
    decreases gs, |gs| - i
  {
    if i < |gs| && gs[i].id != id {
      FirstFromFound(gs[i].subgroups, id, 0);
      FirstFromFound(gs, id, i + 1);
      var sub := FirstFrom(gs[i].subgroups, id, 0);
      if sub.Some? {
        var p := [i] + sub.value;
        assert p[1..] == sub.value;
      }
    }
  }

  lemma FirstWithIDFound(gs: seq<Group>, id: int)
    ensures FirstWithID(gs, id).Some? <==> HasID(gs, id)
    ensures FirstWithID(gs, id).Some? ==>
      At(gs, FirstWithID(gs, id).value).Some? && At(gs, FirstWithID(gs, id).value).value.id == id
  {
    FirstFromFound(gs, id, 0);
  }

  /** A group that has ID `id` is at the path found by the search or comes
      after it in pre-order: the search finds the first one. */
  lemma {:induction false} FirstFromIsFirst(gs: seq<Group>, id: int, i: nat, q: seq<nat>)
    requires q != [] && i <= q[0]
    requires At(gs, q).Some? && At(gs, q).value.id == id
    ensures FirstFrom(gs, id, i).Some?
    ensures !PreorderBefore(q, FirstFrom(gs, id, i).value)
    decreases gs, |gs| - i
  {
    if gs[i].id == id {
      assert FirstFrom(gs, id, i).value == [i];
    } else {
      var sub := FirstFrom(gs[i].subgroups, id, 0);
      if q[0] == i {
        assert |q| > 1;
        FirstFromIsFirst(gs[i].subgroups, id, 0, q[1..]);
        var p' := sub.value;
        var p := [i] + p';
        assert FirstFrom(gs, id, i) == Some(p);
        assert p[1..] == p';
        PreorderTail(q, p);
      } else if sub.Some? {
        FirstFromFound(gs[i].subgroups, id, 0);
        var p := [i] + sub.value;
        assert FirstFrom(gs, id, i) == Some(p);
        assert !PreorderBefore(q, p) by {
          forall k | 0 < k <= |q| && k <= |p|
            ensures q[..k] != p[..k]
          {
            assert q[..k][0] != p[..k][0];
          }
        }
      } else {
        FirstFromIsFirst(gs, id, i + 1, q);
      }
    }
  }

  /** Two paths that start at the same sibling are in pre-order when their
      tails are. */
  lemma PreorderTail(q: seq<nat>, p: seq<nat>)
    requires q != [] && p != [] && q[0] == p[0]
    ensures PreorderBefore(q, p) ==> PreorderBefore(q[1..], p[1..])
  {
    if PreorderBefore(q, p) {
      if |q| < |p| && q == p[..|q|] {
        assert q[1..] == p[1..][..|q| - 1];
      } else {
        var k :| 0 <= k < |q| && k < |p| && q[..k] == p[..k] && q[k] < p[k];
        CommonPrefixTail(q, p, k);
        assert q[1..][k - 1] < p[1..][k - 1];
      }
    }
  }

  /** Two paths that agree on their first k > 0 elements agree on the first
      k - 1 elements of their tails. */
  lemma CommonPrefixTail(q: seq<nat>, p: seq<nat>, k: nat)
    requires 0 < k <= |q| && k <= |p| && q[..k] == p[..k]
    ensures q[1..][..k - 1] == p[1..][..k - 1]
  {
    forall j | 0 <= j < k - 1
      ensures q[1..][j] == p[1..][j]
    {
      assert q[j + 1] == q[..k][j + 1] == p[..k][j + 1] == p[j + 1];
    }
  }

  /** The node at `p` of `r` is the node at `p` of `gs`, with Expanded set to
      `e` when `p` is `target`; every node keeps its place. */
  predicate ExpandedOnlyAt(gs: seq<Group>, r: seq<Group>, target: Option<seq<nat>>, e: bool, p: seq<nat>)
  {
    && At(r, p).Some? == At(gs, p).Some?
    && (At(gs, p).Some? ==>
      var g := At(gs, p).value;
      var g' := At(r, p).value;
      |g'.subgroups| == |g.subgroups| &&
      g'.(subgroups := []) == (if target == Some(p) then g.(expanded := e) else g).(subgroups := []))
  }

  /** Applying the expand walk changes exactly one node, the first group with
      the ID in pre-order, and in it only Expanded; every node keeps its place. */
  lemma {:induction false} ExpandFromAt(gs: seq<Group>, id: int, e: bool, i: nat, p: seq<nat>)
    ensures ExpandedOnlyAt(gs, ExpandFrom(gs, id, e, i), FirstFrom(gs, id, i), e, p)
    decreases gs, |gs| - i
  {
    if i < |gs| {
      if gs[i].id == id {
        ExpandHereAt(gs, id, e, i, p);
      } else if HasID(gs[i].subgroups, id) {
        if p != [] && p[0] == i && |p| > 1 {
          ExpandFromAt(gs[i].subgroups, id, e, 0, p[1..]);
          ExpandBelowAt(gs, id, e, i, p);
        } else {
          ExpandBelowElsewhere(gs, id, e, i, p);
        }
      } else {
        ExpandFromAt(gs, id, e, i + 1, p);
        FirstFromNone(gs[i].subgroups, id, 0);
        if p != [] && p[0] == i {
          FirstFromAfter(gs, id, i + 1);
        }
      }
    }
  }

  /** The case of ExpandFromAt where gs[i] itself has the ID. */
  lemma ExpandHereAt(gs: seq<Group>, id: int, e: bool, i: nat, p: seq<nat>)
    requires i < |gs| && gs[i].id == id
    ensures ExpandedOnlyAt(gs, ExpandFrom(gs, id, e, i), FirstFrom(gs, id, i), e, p)
  {
    var r := ExpandFrom(gs, id, e, i);
    assert FirstFrom(gs, id, i) == Some([i]);
    if |p| == 1 && p[0] == i {
      assert p == [i];
    }
    if p != [] && p[0] < |gs| && |p| > 1 {
      assert r[p[0]].subgroups == gs[p[0]].subgroups;
      assert At(r, p) == At(gs[p[0]].subgroups, p[1..]) == At(gs, p);
      assert [i] != p;
    }
  }

  /** The case of ExpandFromAt where the ID is below gs[i] and `p` points
      into gs[i]'s subgroups. */
  lemma ExpandBelowAt(gs: seq<Group>, id: int, e: bool, i: nat, p: seq<nat>)
    requires i < |gs| && gs[i].id != id && HasID(gs[i].subgroups, id)
    requires |p| > 1 && p[0] == i
    requires ExpandedOnlyAt(gs[i].subgroups, ExpandFrom(gs[i].subgroups, id, e, 0), FirstFrom(gs[i].subgroups, id, 0), e, p[1..])
    ensures ExpandedOnlyAt(gs, ExpandFrom(gs, id, e, i), FirstFrom(gs, id, i), e, p)
  {
    FirstFromFound(gs[i].subgroups, id, 0);
    var sub := FirstFrom(gs[i].subgroups, id, 0);
    assert FirstFrom(gs, id, i) == Some(p) <==> sub == Some(p[1..]) by {
      assert FirstFrom(gs, id, i) == Some([i] + sub.value);
      assert [i] + sub.value == p <==> sub.value == p[1..] by {
        if sub.value == p[1..] { assert [i] + p[1..] == p; }
      }
    }
  }

  /** The case of ExpandFromAt where the ID is below gs[i] and `p` points
      anywhere but into gs[i]'s subgroups. */
  lemma ExpandBelowElsewhere(gs: seq<Group>, id: int, e: bool, i: nat, p: seq<nat>)
    requires i < |gs| && gs[i].id != id && HasID(gs[i].subgroups, id)
    requires !(p != [] && p[0] == i && |p| > 1)
    ensures ExpandedOnlyAt(gs, ExpandFrom(gs, id, e, i), FirstFrom(gs, id, i), e, p)
  {
    FirstFromFound(gs[i].subgroups, id, 0);
  }

  /** The search finds nothing in a forest without the ID. */
  lemma FirstFromNone(gs: seq<Group>, id: int, i: nat)
    requires !HasID(gs, id)
    ensures FirstFrom(gs, id, i) == None
  {
    FirstFromFound(gs, id, i);
  }

  /** A path found from sibling index i on starts at i or later. */
  lemma FirstFromAfter(gs: seq<Group>, id: int, i: nat)
    ensures FirstFrom(gs, id, i).Some? ==> FirstFrom(gs, id, i).value != [] && FirstFrom(gs, id, i).value[0] >= i
  {
    FirstFromFound(gs, id, i);
  }

  /** The expand walk keeps every ID where it was, so a group has ID `id`
      after the walk iff it had it before. */
  lemma {:induction false} ExpandKeepsIDs(gs: seq<Group>, id: int, e: bool, i: nat, x: int)
    ensures HasID(ExpandFrom(gs, id, e, i), x) == HasID(gs, x)
    decreases gs, |gs| - i
  {
    var r := ExpandFrom(gs, id, e, i);
    if i < |gs| {
      if gs[i].id == id {
        HasIDPointwise(gs, r, x);
      } else if HasID(gs[i].subgroups, id) {
        ExpandKeepsIDs(gs[i].subgroups, id, e, 0, x);
        HasIDPointwise(gs, r, x);
      } else {
        ExpandKeepsIDs(gs, id, e, i + 1, x);
      }
    }
  }

  /** Two forests whose nodes agree on ID and on HasID of their subgroups
      agree on HasID. */
  lemma HasIDPointwise(a: seq<Group>, b: seq<Group>, x: int)
    requires |a| == |b|
    requires forall k :: 0 <= k < |a| ==> a[k].id == b[k].id && HasID(a[k].subgroups, x) == HasID(b[k].subgroups, x)
    ensures HasID(a, x) == HasID(b, x)
  {
    if HasID(a, x) {
      var k :| 0 <= k < |a| && (a[k].id == x || HasID(a[k].subgroups, x));
      assert b[k].id == x || HasID(b[k].subgroups, x);
    }
    if HasID(b, x) {
      var k :| 0 <= k < |b| && (b[k].id == x || HasID(b[k].subgroups, x));
      assert a[k].id == x || HasID(a[k].subgroups, x);
    }
  }

  /** Expanding or collapsing the same group twice is the same as once. */
  lemma {:induction false} ExpandIdempotent(gs: seq<Group>, id: int, e: bool, i: nat)
    ensures ExpandFrom(ExpandFrom(gs, id, e, i), id, e, i) == ExpandFrom(gs, id, e, i)
    decreases gs, |gs| - i
  {
    var r := ExpandFrom(gs, id, e, i);
    if i < |gs| {
      if gs[i].id == id {
        assert r[i].id == id;
        assert r[i := r[i].(expanded := e)] == r;
      } else if HasID(gs[i].subgroups, id) {
        ExpandKeepsIDs(gs[i].subgroups, id, e, 0, id);
        ExpandIdempotent(gs[i].subgroups, id, e, 0);
        assert r[i].id != id && HasID(r[i].subgroups, id);
      } else {
        ExpandIdempotent(gs, id, e, i + 1);
        var r' := ExpandFrom(gs, id, e, i + 1);
        assert r == r';
        ExpandSkipsPrefix(gs, id, e, i + 1);
        assert r'[i] == gs[i];
      }
    }
  }

  /** The walk from sibling index i on leaves the siblings before i alone. */
  lemma {:induction false} ExpandSkipsPrefix(gs: seq<Group>, id: int, e: bool, i: nat)
    ensures forall k :: 0 <= k < i && k < |gs| ==> ExpandFrom(gs, id, e, i)[k] == gs[k]
    decreases |gs| - i
  {
    if i < |gs| && gs[i].id != id && !HasID(gs[i].subgroups, id) {
      ExpandSkipsPrefix(gs, id, e, i + 1);
    }
  }

  // ---------------------------------------------------------------------
  // markSelectedProjects (settings.go:423-435)
  // ---------------------------------------------------------------------

  /** Go's `selectedProjectMap[id]`: false for an absent key. */
  predicate IsSelected(selected: map<int, bool>, id: int)
  {
    id in selected && selected[id]
  }

  function MarkProjects(ps: seq<Project>, selected: map<int, bool>): seq<Project>
  {
    seq(|ps|, j requires 0 <= j < |ps| =>
      if IsSelected(selected, ps[j].id) then ps[j].(selected := true) else ps[j])
  }

  /** The forest after markSelectedProjects(gs, selected). */
  function Marked(gs: seq<Group>, selected: map<int, bool>): (r: seq<Group>)
    ensures |r| == |gs|
  {
    seq(|gs|, i requires 0 <= i < |gs| => MarkedGroup(gs[i], selected))
  }

  function MarkedGroup(g: Group, selected: map<int, bool>): Group
  {
    g.(projects := MarkProjects(g.projects, selected), subgroups := Marked(g.subgroups, selected))
  }

  method MarkSelectedProjects(groups: seq<Group>, selected: map<int, bool>) returns (result: seq<Group>)
    ensures result == Marked(groups, selected)
  {
    result := groups;
    for i := 0 to |groups|
      invariant |result| == |groups|
      invariant forall k :: 0 <= k < i ==> result[k] == MarkedGroup(groups[k], selected)
      invariant forall k :: i <= k < |groups| ==> result[k] == groups[k]
    {
      var g := result[i];
      var projects := g.projects;
      for j := 0 to |projects|
        invariant |projects| == |g.projects|
        invariant forall k :: 0 <= k < j ==> projects[k] == MarkProjects(g.projects, selected)[k]
        invariant forall k :: j <= k < |projects| ==> projects[k] == g.projects[k]
      {
        if IsSelected(selected, projects[j].id) {
          projects := projects[j := projects[j].(selected := true)];
        }
      }
      var subgroups := MarkSelectedProjects(g.subgroups, selected);
      result := result[i := g.(projects := projects, subgroups := subgroups)];
    }
  }

  /** After markSelectedProjects every node keeps its place and every field
      but the projects' Selected; a project is selected afterwards iff it was
      selected before or its ID is in the map. */
  lemma {:induction false} MarkedAt(gs: seq<Group>, selected: map<int, bool>, p: seq<nat>)
    ensures At(Marked(gs, selected), p).Some? == At(gs, p).Some?
    ensures At(gs, p).Some? ==>
      var g := At(gs, p).value;
      var g' := At(Marked(gs, selected), p).value;
      && |g'.projects| == |g.projects|
      && (forall j :: 0 <= j < |g.projects| ==>
            g'.projects[j].(selected := g.projects[j].selected) == g.projects[j] &&
            (g'.projects[j].selected <==> g.projects[j].selected || IsSelected(selected, g.projects[j].id)))
      && |g'.subgroups| == |g.subgroups|
      && g'.(projects := g.projects, subgroups := g.subgroups) == g
    decreases |p|
  {
    if p != [] && p[0] < |gs| && |p| > 1 {
      MarkedAt(gs[p[0]].subgroups, selected, p[1..]);
    }
  }

  /** Marking twice with the same map is the same as marking once. */
  lemma {:induction false} MarkedIdempotent(gs: seq<Group>, selected: map<int, bool>)
    ensures Marked(Marked(gs, selected), selected) == Marked(gs, selected)
    decreases gs
  {
    var r := Marked(gs, selected);
    forall i | 0 <= i < |gs|
      ensures MarkedGroup(r[i], selected) == r[i]
    {
      MarkedIdempotent(gs[i].subgroups, selected);
      assert MarkProjects(r[i].projects, selected) == r[i].projects;
    }
  }

  // ---------------------------------------------------------------------
  // Request glue (settings.go:82-88)
  // ---------------------------------------------------------------------

  /** The settings page's expand/collapse action: with a non-empty `action`
      and a `groupID` that Atoi accepts, the first group with that ID is
      expanded when the action is "expand" and collapsed otherwise; the tree
      is left alone in every other case. */
  method ApplyExpandAction(tree: seq<Group>, action: string, groupIDStr: string) returns (result: seq<Group>)
    ensures action == "" || groupIDStr == "" || Strconv.Atoi(groupIDStr).None? ==> result == tree
    ensures action != "" && Strconv.Atoi(groupIDStr).Some? ==>
      result == Expand(tree, Strconv.Atoi(groupIDStr).value, action == "expand")
  {
    result := tree;
    if action != "" && groupIDStr != "" {
      var groupID := Strconv.Atoi(groupIDStr);
      if groupID.Some? {
        var _, updated := UpdateGroupExpandState(tree, groupID.value, action == "expand");
        result := updated;
      }
    }
  }
}
