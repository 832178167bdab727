# GitLab status: group trees and structure downloads, in Dafny

This project models the tree helpers of a small GitLab dashboard written in
Go. The helpers are the parts of the web handlers that do not touch the
network, the database or the session:

- **The settings page's group tree** (`handlers/settings.go`):
  - `buildNestedGroupTree` rebuilds a nested `[]Group` from the flat group
    and project caches. It uses three lookup maps: `groupByID`,
    `groupByPath` and `projectsByPath`.
  - `setGroupLevels` stamps indentation levels.
  - `updateGroupExpandState` expands or collapses the first group with a
    given ID, in pre-order.
  - `markSelectedProjects` marks the projects a user has selected.
  - The request glue at lines 82-88 turns the `action` and `groupID`
    parameters into an expand or collapse call.
- **The Markdown structure downloads** (`handlers/structureDownload.go`):
  - `buildProjectPathTree` turns project paths such as `group/sub/project`
    into a trie of `PathNode`s.
  - `writePathTreeToMarkdown` writes that trie with children sorted by name.
  - `writeGroupsToMarkdown` writes a group forest in slice order.

The Dafny modules follow that structure:

| module | file | what it holds |
|---|---|---|
| `Models` | models.dfy | the records `CachedGroup`, `CachedProject`, `Group` and `Project`, with the fields the helpers use |
| `Strings` | strings.dfy | Go's `strings.Split`, `Join`, `LastIndex` and `Repeat` with the separator `/` |
| `Strconv` | strconv.dfy | `strconv.Atoi` on 64-bit `int`, and `Itoa` as its partner |
| `Sorting` | sorting.dfy | Go's string order and `sort.Strings` applied to a map's keys |
| `GroupWalks` | group_walks.dfy | `setGroupLevels`, `updateGroupExpandState`, `markSelectedProjects` and the request glue |
| `GroupTree` | group_tree.dfy | `buildNestedGroupTree`, loop by loop, plus a declarative description of its result |
| `PathTree` | path_tree.dfy | `PathNode` and `buildProjectPathTree` |
| `Markdown` | markdown.dfy | both Markdown writers and what their output contains |

Go structs are values, so groups, projects and cache rows are datatypes.

The walks overwrite fields of slice elements in place. Each walk is a method
that returns the updated slice, treating every slice as unshared. It is
proved equal to a function of the old slice, and the properties are lemmas
about that function.

The path trie links heap nodes through `map[string]*PathNode`. Here it is an
arena:
- a `seq<PathNode>` whose root is node 0;
- each node's `children` maps a segment to the index of the child;
- a child always has a larger index than its parent.

`buildProjectPathTree` is a method whose loops carry the invariants of the
Go loops.

The two writers append to a `bytes.Buffer`. Each is a method that returns
`buffer + Text(...)`, where `Text` is a function of the tree that says exactly
what is written. Lemmas about those functions show what the download contains.

### What the code does that its comment does not say

The comment at `handlers/settings.go:288` says the function builds "a proper
nested group tree". The code does something else, and the model follows the
code:

- The `group` handled in the third loop (line 351) is a copy of the
  `groupByID` entry, and no loop updates that map after line 310.
- The last loop (lines 381-385) replaces each root with its `groupByPath`
  entry. That entry has received subgroups, but never projects or levels.

So the returned roots have no projects and Level 0. Each attached subgroup
has the projects of its own namespace and no subgroups of its own. Groups
two or more levels below a root do not appear at all.

`GroupTree.NestedGroupTreeIsExpected`, `GroupTree.NestedRootFields` and
`GroupTree.NoGrandchildren` state this.

## Model

| member | source | states |
|---|---|---|
| Strings.Split | handlers/settings.go:335 | `strings.Split(s, "/")` never returns an empty list, and returns a single piece exactly when `s` has no `/` |
| Strings.LastSlash | handlers/settings.go:366 | `strings.LastIndex(s, "/")` is -1 exactly when `s` has no `/`; otherwise it is the index of a `/` with no `/` after it |
| Strings.Repeat | handlers/structureDownload.go:119 | `strings.Repeat` gives exactly n copies of the character |
| Strings.SplitPiecesSlashFree | handlers/structureDownload.go:77 | no piece of a split contains `/` |
| Strings.Join | handlers/settings.go:338 | `strings.Join(parts, "/")`: JoinSplit, SplitJoin, JoinSnoc and JoinDropLast state what it gives |
| Strings.JoinSplit | handlers/settings.go:335-338 | joining the pieces of a split with `/` gives the string back |
| Strings.SplitJoin | handlers/structureDownload.go:77 | splitting a join of one or more slash-free pieces gives those pieces back |
| Strings.JoinSnoc | handlers/structureDownload.go:84-85 | joining one more piece appends `/` and the piece, which is how the running full path grows |
| Strings.JoinDropLast | handlers/settings.go:335-338 | joining all pieces of a split but the last gives the text before the last `/` |
| Strconv.Digits | handlers/settings.go:83 | the decimal form of a natural number is non-empty and all digits |
| Strconv.Atoi | handlers/settings.go:83 | `strconv.Atoi` succeeds only on an optional sign followed by one or more digits, and only with a value within Go's 64-bit `int` range |
| Strconv.DigitsValueOfDigits | handlers/settings.go:83 | reading back the decimal digits of n gives n |
| Strconv.AtoiItoa | handlers/settings.go:83-84 | Atoi accepts the decimal form of every 64-bit value and returns that value, so each such group ID is used |
| Strconv.AtoiRejectsNonDigit | handlers/settings.go:83-84 | a `groupID` with a non-digit after the optional sign is rejected, so the action is ignored |
| Sorting.Less | handlers/structureDownload.go:147 | Go's string `<`, which `sort.Strings` uses: the first differing character decides and a proper prefix comes first; LessIrreflexive, LessAsymmetric, LessTransitive and LessTotal show it is a strict total order |
| Sorting.LessIrreflexive | handlers/structureDownload.go:147 | no string comes before itself in Go's string order |
| Sorting.LessAsymmetric | handlers/structureDownload.go:147 | two strings are never each before the other |
| Sorting.LessTransitive | handlers/structureDownload.go:147 | Go's string order is transitive |
| Sorting.LessTotal | handlers/structureDownload.go:147 | any two different strings are ordered one way or the other |
| Sorting.LessEqTransitive | handlers/structureDownload.go:147 | the non-strict order is transitive |
| Sorting.LeastExists | handlers/structureDownload.go:143-147 | every non-empty set of names has a least element |
| Sorting.Least | handlers/structureDownload.go:143-147 | the chosen element is the least of the set |
| Sorting.SortedNamesSpec | handlers/structureDownload.go:143-147 | the sorted child names are strictly ascending, and each key of the map appears exactly once |
| Sorting.SortedNamesMembers | handlers/structureDownload.go:143-147 | a name is listed exactly when it is a child's key |
| Sorting.SortedHeads | handlers/structureDownload.go:147 | two ascending sequences with the same elements start with the same element |
| Sorting.SortedTail | handlers/structureDownload.go:147 | the tail of an ascending sequence is ascending |
| Sorting.SortedUnique | handlers/structureDownload.go:142-147 | two ascending sequences with the same elements are equal, so the written order does not depend on map iteration order |
| Sorting.SortStrings | handlers/structureDownload.go:147 | `sort.Strings` returns its input ascending, as a permutation of the input |
| Sorting.InsertSorted | handlers/structureDownload.go:147 | inserting into an ascending sequence keeps it ascending and adds exactly that element |
| Sorting.SortedChildNames | handlers/structureDownload.go:143-147 | the names collected from the children map and sorted are the map's keys in ascending order, whatever order the map yields them in |
| GroupWalks.WithLevels | handlers/settings.go:391-403 | the forest after `setGroupLevels` has as many groups as before |
| GroupWalks.SetGroupLevels | handlers/settings.go:391-403 | the loop computes `WithLevels(groups, level)` |
| GroupWalks.LevelsByDepth | handlers/settings.go:391-403 | the group at depth k gets Level L+k and each of its projects L+k+1; every node stays in place and no other field changes |
| GroupWalks.ExpandFrom | handlers/settings.go:406-420 | the expand walk keeps the number of siblings |
| GroupWalks.UpdateGroupExpandState | handlers/settings.go:406-420 | returns true exactly when some group at any depth has the ID, and the new forest is `Expand(groups, targetID, expanded)` |
| GroupWalks.ExpandMissing | handlers/settings.go:407-419 | when no sibling from i on, nor anything below one, has the ID, nothing changes |
| GroupWalks.ExpandNotFound | handlers/settings.go:406-420 | when the walk returns false, the tree is unchanged |
| GroupWalks.FirstFromFound | handlers/settings.go:407-417 | the pre-order search finds a path exactly when a sibling from i on, or a group below one, has the ID, and the group at that path has it |
| GroupWalks.FirstWithIDFound | handlers/settings.go:406-420 | the search from the first sibling finds a path exactly when some group has the ID, and that group has it |
| GroupWalks.FirstFromIsFirst | handlers/settings.go:407-417 | no group with the ID comes before the one found, in pre-order (node, then its subgroups, then the next sibling) |
| GroupWalks.PreorderTail | handlers/settings.go:414 | when two paths go through the same sibling, being earlier in pre-order carries over to the subgroups |
| GroupWalks.ExpandFromAt | handlers/settings.go:406-420 | the walk changes only the first group with the ID, and in it only Expanded, which becomes the requested value; every node stays in place |
| GroupWalks.ExpandHereAt | handlers/settings.go:408-411 | the case where the sibling itself has the ID: only its Expanded changes |
| GroupWalks.ExpandBelowAt | handlers/settings.go:414-416 | the case where the ID is below the sibling: nodes inside that sibling change as the recursive walk says |
| GroupWalks.ExpandBelowElsewhere | handlers/settings.go:414-416 | the case where the ID is below the sibling: every node outside that sibling's subgroups is unchanged |
| GroupWalks.FirstFromNone | handlers/settings.go:419 | the search finds nothing in a forest without the ID |
| GroupWalks.FirstFromAfter | handlers/settings.go:407 | a path found from sibling i on starts at i or later |
| GroupWalks.ExpandKeepsIDs | handlers/settings.go:406-420 | a group has a given ID after the walk exactly when one had it before |
| GroupWalks.HasIDPointwise | handlers/settings.go:406-420 | forests that agree node by node on IDs agree on which IDs they contain |
| GroupWalks.ExpandIdempotent | handlers/settings.go:406-420 | expanding or collapsing the same group twice is the same as once |
| GroupWalks.ExpandSkipsPrefix | handlers/settings.go:407 | the walk from sibling i on leaves the siblings before i alone |
| GroupWalks.Marked | handlers/settings.go:423-435 | the forest after `markSelectedProjects` has as many groups as before |
| GroupWalks.MarkSelectedProjects | handlers/settings.go:423-435 | the loop computes `Marked(groups, selected)` |
| GroupWalks.MarkedAt | handlers/settings.go:423-435 | a project is selected afterwards exactly when it was selected before or its ID maps to true; nothing else changes, and no node moves |
| GroupWalks.MarkedIdempotent | handlers/settings.go:423-435 | marking twice with the same map is the same as marking once |
| GroupWalks.ApplyExpandAction | handlers/settings.go:82-88 | with an empty action, an empty `groupID` or one Atoi rejects, the tree is unchanged; otherwise the first group with that ID is expanded when the action is "expand" and collapsed for any other action |
| GroupTree.IndexGroups | handlers/settings.go:294-312 | the first loop builds `groupByID` and `groupByPath` as `GroupsByID` and `GroupsByPath` say |
| GroupTree.IDsKnown | handlers/settings.go:310 | every cached group's ID is a key of `groupByID` |
| GroupTree.GroupsByIDAt | handlers/settings.go:295-310 | with distinct IDs, `groupByID` maps each ID to that group: no subgroups, no projects, Level 0, not HasChildren, Expanded |
| GroupTree.GroupsByPathKeys | handlers/settings.go:311 | the keys of `groupByPath` are exactly the groups' full paths |
| GroupTree.GroupsByIDLast | handlers/settings.go:295-310 | `groupByID` maps an ID to the last group with that ID: the last write wins |
| GroupTree.GroupsByPathLast | handlers/settings.go:295-311 | `groupByPath` maps a full path to the last group with that full path: the last write wins |
| GroupTree.GroupsByPathAt | handlers/settings.go:295-311 | with distinct full paths, `groupByPath` maps each full path to that group |
| GroupTree.BucketProjects | handlers/settings.go:314-344 | the second loop builds `projectsByPath` as `Buckets` says |
| GroupTree.BucketKeyIsNamespace | handlers/settings.go:335-343 | the bucket key, split then joined without the last piece, is the text before the last `/`, or "" when there is none |
| GroupTree.BucketsAreFilters | handlers/settings.go:314-344 | a bucket exists exactly for the namespaces that some project has, and holds exactly those projects in input order |
| GroupTree.PlaceGroups | handlers/settings.go:346-375 | the third loop computes the roots and the updated `groupByPath` as `Placed` says |
| GroupTree.PlacedKeys | handlers/settings.go:369-373 | the third loop adds no key to `groupByPath` and removes none |
| GroupTree.PlacedRoots | handlers/settings.go:359-363 | the roots are the groups whose full path has no `/`, in input order, each with its own bucket's projects |
| GroupTree.StepEntry | handlers/settings.go:350-374 | one pass appends the group to its parent's entry and sets HasChildren, only for the parent path before the last `/` (when that `/` is not first), and leaves every other entry alone |
| GroupTree.AttachedSnoc | handlers/settings.go:370-371 | attaching one more group appends it to Subgroups and sets HasChildren |
| GroupTree.PlacedEntry | handlers/settings.go:365-374 | each known parent path's entry receives exactly the groups directly below it, in input order |
| GroupTree.Overwrite | handlers/settings.go:381-385 | the last loop keeps the number of roots |
| GroupTree.OverwriteRoots | handlers/settings.go:380-385 | the last loop replaces each root with its `groupByPath` entry, as `Overwrite` says |
| GroupTree.BuildNestedGroupTree | handlers/settings.go:289-388 | the four loops and `setGroupLevels` together compute `NestedGroupTree` |
| GroupTree.RootPathsKept | handlers/settings.go:377-382 | `setGroupLevels` keeps each root's full path, so the last loop finds the same entry |
| GroupTree.RootsCount | handlers/settings.go:346-387 | there is one returned root per group whose full path has no `/` |
| GroupTree.ChildGroups | handlers/settings.go:351-357 | one attached form per group |
| GroupTree.ExpectedRoots | handlers/settings.go:346-387 | the reference result has one root per top-level group |
| GroupTree.FilledIsChild | handlers/settings.go:351-357 | with distinct IDs, the group handled in the third loop is its cached group with its namespace's projects, HasChildren exactly when it has projects, and no subgroups |
| GroupTree.FilledAllAreChildren | handlers/settings.go:350-357 | the same holds for every group of a list |
| GroupTree.NestedRootAt | handlers/settings.go:289-388 | with distinct IDs and full paths, the root at index i is the i-th top-level group in the form `RootGroup` describes |
| GroupTree.NestedGroupTreeIsExpected | handlers/settings.go:289-388 | with distinct IDs and full paths, the result equals the reference definition `ExpectedRoots` |
| GroupTree.NestedRootFields | handlers/settings.go:289-388 | each root has its group's ID and path, Level 0, Expanded and no projects, with HasChildren exactly when it has subgroups; each subgroup sits directly below the root, has its namespace's projects (HasChildren exactly when there are some) and no subgroups |
| GroupTree.NoGrandchildren | handlers/settings.go:350-385 | no group of the result lies two or more levels below a root |
| PathTree.LookupGrows | handlers/structureDownload.go:98-107 | an existing child is reused and never replaced, so a path that leads to a node still leads there after more insertions |
| PathTree.LookupBound | handlers/structureDownload.go:98-107 | following segments stays inside the tree and only moves to later nodes |
| PathTree.LookupSnoc | handlers/structureDownload.go:107 | following one more segment is one more child step |
| PathTree.LookupFullPath | handlers/structureDownload.go:84-105 | the node reached from the root by the segments is named after the last one, and its full path is the segments joined with `/` |
| PathTree.TopLevelHome | handlers/structureDownload.go:77-95 | a project whose path has no `/` is put on the root |
| PathTree.HomeFullPath | handlers/structureDownload.go:77-107 | a project whose path has a `/` is put on the node whose full path is the text before the last `/` |
| PathTree.ProjectsAtGrows | handlers/structureDownload.go:98-107 | growing the tree does not move a project whose home node already exists |
| PathTree.CountGrows | handlers/structureDownload.go:95-105 | adding one project to one node and empty nodes at the end adds one to the project count |
| PathTree.ChildFor | handlers/structureDownload.go:98-107 | returns the existing child for the segment, unchanged tree, or appends a new group node named and pathed after the segment, with the running full path, and links it |
| PathTree.NewChildValid | handlers/structureDownload.go:98-106 | a new child keeps the tree well formed, adds only that node and moves no project |
| PathTree.AddProject | handlers/structureDownload.go:95 | the project is appended to the current node only |
| PathTree.WalkStep | handlers/structureDownload.go:96-107 | after a group segment, the current node is the one the segments so far lead to, and no project has moved |
| PathTree.ProjectStep | handlers/structureDownload.go:91-95 | after the last segment, the project is on the node that all but the last segment lead to, and on no other |
| PathTree.FullPathStep | handlers/structureDownload.go:84-88 | the running full path is the segments so far joined with `/`, which is the parent's full path, `/` and the segment, or the segment alone below the root |
| PathTree.VisitSegment | handlers/structureDownload.go:83-109 | one pass of the inner loop keeps the loop invariant |
| PathTree.VisitProjectSegment | handlers/structureDownload.go:91-95 | the last segment appends the project where the walk stands |
| PathTree.VisitGroupSegment | handlers/structureDownload.go:96-108 | a group segment moves the walk to the child for it, creating it if missing |
| PathTree.LastSegmentDone | handlers/structureDownload.go:91-95 | the inner loop's invariant holds after the last segment |
| PathTree.GroupSegmentDone | handlers/structureDownload.go:96-108 | the inner loop's invariant holds after a group segment |
| PathTree.InsertedHome | handlers/structureDownload.go:77-109 | after the inner loop, the project's home is the node reached |
| PathTree.InsertProject | handlers/structureDownload.go:76-109 | one outer pass keeps the tree well formed, reuses existing nodes, appends the project to its home only, and adds only nodes that a non-empty prefix of the project's group segments leads to |
| PathTree.WalkSegments | handlers/structureDownload.go:83-109 | the inner loop ends with the project on the node its group segments lead to, and every node it added is reached by a non-empty prefix of those segments |
| PathTree.FreshAreDirs | handlers/structureDownload.go:83-109 | the prefixes of the split path that reach the added nodes are prefixes of the group segments only, never the project's own name |
| PathTree.FreshStep | handlers/structureDownload.go:96-107 | one segment adds at most one node, the one the segments so far lead to |
| PathTree.BuildStep | handlers/structureDownload.go:75-110 | the outer loop's invariant is kept: every earlier project stays where it was, each node's list is its projects in input order, and the total grows by one |
| PathTree.BuildStepHomes | handlers/structureDownload.go:75-110 | every project inserted so far still has its home |
| PathTree.BuildStepLists | handlers/structureDownload.go:95 | every node's list is the projects inserted so far whose home it is, in input order |
| PathTree.BuildCount | handlers/structureDownload.go:75-96 | inserting one project adds one to the total |
| PathTree.CountOne | handlers/structureDownload.go:95 | one more project on one node and nothing else gives one more in total |
| PathTree.BuildStepSpanned | handlers/structureDownload.go:75-110 | after each insertion, every node but the root lies on the group segments of some project inserted so far |
| PathTree.NoProjectsBareRoot | handlers/structureDownload.go:66-75 | with no projects, a tree meeting the builder's postconditions is the bare root, as Go returns for an empty slice |
| PathTree.OnlyRoot | handlers/structureDownload.go:66-75 | a valid tree with no node on any project's group path is the root alone, without children |
| PathTree.BuildStepAt | handlers/structureDownload.go:95-107 | `BuildStep` for the list of a single node |
| PathTree.BuildProjectPathTree | handlers/structureDownload.go:66-113 | the tree is well formed from a root named "Root" with empty path and full path; every project has a home, the node its group segments lead to; each node holds exactly its projects in input order; the total equals the number of projects; and every node but the root is reached by a non-empty prefix of some project's group segments, so the tree has no other nodes |
| Markdown.Heading | handlers/structureDownload.go:119-120 | a heading is n `#`, a space, the title and two newlines |
| Markdown.WriteCachedProjectLines | handlers/structureDownload.go:133-138 | the loop appends one ``- [name](url): `path` `` line per project, in order |
| Markdown.WriteGroupProjectLines | handlers/structureDownload.go:207-212 | the loop appends one line per project, in order |
| Markdown.CachedLineShown | handlers/structureDownload.go:133-138 | every project of a node has its line in the node's list |
| Markdown.GroupLineShown | handlers/structureDownload.go:207-212 | every project of a group has its line in the group's list |
| Markdown.WritePathTreeToMarkdown | handlers/structureDownload.go:116-153 | the buffer gets exactly `PathNodeMarkdown` appended, so earlier content is kept as a prefix |
| Markdown.PathNodeMarkdownParts | handlers/structureDownload.go:116-153 | a node's text is its header, then its project block, then its children in ascending order of name |
| Markdown.WriteNodeHeader | handlers/structureDownload.go:118-125 | nothing at level 0; otherwise level+1 `#`, the name, and the full path line only when the full path is not empty |
| Markdown.WriteNodeProjects | handlers/structureDownload.go:128-140 | nothing without projects; otherwise `**Projects:**` only at level > 0, the lines, and a blank line |
| Markdown.WriteChildren | handlers/structureDownload.go:149-152 | each child's text in turn, in the order of the names given |
| Markdown.LeafMarkdown | handlers/structureDownload.go:116-153 | a node without projects or children writes nothing at level 0, and only its heading and optional full path line below |
| Markdown.ChildInChildren | handlers/structureDownload.go:149-152 | each listed child's text is part of the children's text |
| Markdown.ChildShown | handlers/structureDownload.go:142-152 | every child of a node is written one level deeper inside the node's text |
| Markdown.NodeShown | handlers/structureDownload.go:116-153 | every node below a node is written inside its text, one level deeper per segment |
| Markdown.NodeHeadingFirst | handlers/structureDownload.go:118-125 | a node's text holds its heading, followed directly by its full path line when the full path is not empty |
| Markdown.DownloadShowsNode | handlers/structureDownload.go:116-153 | written from the root at level 0, every node d segments deep has a heading of d+1 `#` with its last segment, followed by its full path (the segments joined with `/`) |
| Markdown.NodeProjectShown | handlers/structureDownload.go:128-140 | every project a node holds has its line in the node's text |
| Markdown.InProjectsAt | handlers/structureDownload.go:95 | a project is among those its home node holds |
| Markdown.DownloadListsEveryProject | handlers/structureDownload.go:75-153 | of a tree built from the projects, the download from the root lists every input project |
| Markdown.NoProjectsEmptyDownload | handlers/structureDownload.go:40-46 | with no projects, the download written from the builder's tree at level 0 adds nothing after the title lines |
| Markdown.WriteGroupsToMarkdown | handlers/structureDownload.go:194-221 | the buffer gets exactly `GroupsMarkdown` appended: the groups' texts in slice order |
| Markdown.WriteGroup | handlers/structureDownload.go:196-219 | one group's text: a heading of level+2 `#`, the Path and URL lines, the project block only with projects, and the subgroups at level+1 only with subgroups |
| Markdown.GroupsMarkdownSnoc | handlers/structureDownload.go:195-220 | writing one more group appends its text |
| Markdown.GroupsMarkdownAppend | handlers/structureDownload.go:195-220 | writing two slices in turn writes their concatenation |
| Markdown.BareGroupMarkdown | handlers/structureDownload.go:196-219 | a group with neither projects nor subgroups writes only its heading, Path and URL lines |
| Markdown.GroupInGroups | handlers/structureDownload.go:195-220 | the text of each group of a slice is part of the slice's text |
| Markdown.SubgroupsShown | handlers/structureDownload.go:216-219 | a group with subgroups writes them, one level deeper, inside its own text |
| Markdown.GroupShown | handlers/structureDownload.go:194-221 | every group at any depth is written inside the slice's text, one level deeper per step down |
| Markdown.GroupMarkdownHolds | handlers/structureDownload.go:196-214 | a group's text holds its heading, Path and URL lines, and a line for each of its projects |
| Markdown.GroupsDownloadShows | handlers/structureDownload.go:194-221 | every group at depth d appears with a heading of level+d+2 `#` and its Path and URL lines, together with a line for each of its projects |

## Left out

- Network, database, sessions and rendering:
  - `gitlab/client.go`, `db/db.go` and the handler bodies are not part of this model. That covers session checks, cache loading, templ rendering, response headers, the goroutine and the "Generated on" time stamp.
  - Only the pure glue at `handlers/settings.go:82-88` is modelled.
- `handlers/structureDownload.go:178` calls `buildNestedGroupTree` with three arguments, but it is defined with two. The model follows the two-argument definition, and `WriteGroupsToMarkdown` accepts any forest.
- Pointers and sharing:
  - `PathNode`s live in an arena indexed by `nat`. The model does not capture pointer identity or aliasing between the map and `current`.
  - `setGroupLevels` also writes Level into project slices that Go shares with `projectsByPath`. None of them reaches the returned tree, because the roots are overwritten and attached subgroups are never levelled. So value semantics gives the same result.
- GroupWalks.UpdateGroupExpandState and GroupWalks.ApplyExpandAction assume that no two groups share a `Subgroups` slice. In the forest `buildNestedGroupTree` returns, two roots with the same full path are both copies of one `groupByPath` entry (`handlers/settings.go:381-383`), so they share one backing array. Go's in-place write at `handlers/settings.go:409` then changes a subgroup under both roots, while `Expand` changes it only under the first. This needs two cached groups with the same full path, which the distinct-paths assumption below rules out.
- GroupTree.NestedGroupTreeIsExpected: its declarative description, and that of `NestedRootAt`, `NestedRootFields` and `NoGrandchildren`, assumes distinct group IDs (the cache's primary key) and distinct full paths (unique in GitLab). The loop-by-loop result `NestedGroupTree`, which `BuildNestedGroupTree` is proved to compute, assumes neither.
- Levels:
  - Markdown.WritePathTreeToMarkdown takes `level` as `nat` and does not model a negative level. Go writes a node at a negative level like one at level 0, because `strings.Repeat` is only reached when `level > 0` (`handlers/structureDownload.go:118-119`). The writer is only ever called with level 0 (`handlers/structureDownload.go:46`) and its recursion only raises the level, so no reachable call is lost.
  - Markdown.WriteGroupsToMarkdown also takes `level` as `nat`. In Go, levels -1 and -2 give `strings.Repeat` counts 1 and 0, and only a level of -3 or less panics (`handlers/structureDownload.go:197`). The writer is only ever called with level 0 (`handlers/structureDownload.go:184`) and its recursion only raises the level, so no reachable call is lost.
  - The settings walks keep Go's `int` levels and do not model wrap-around, which needs a tree depth near 2^63.
- `sort.Strings` is not modelled step by step. `Sorting.SortStrings` is an insertion sort proved to produce the unique ascending permutation, which is what Go's sort produces for strings, since equal strings are indistinguishable.
- The path writer's text (`PathNodeMarkdown`) is a ghost function, because it names the sorted keys through a choice of least element. The writer method computes the same text with `SortedChildNames`.
- Go's `strings` functions are modelled only with the separator `/`, the only one the code uses.
- Strings are sequences of code points. Go's byte order on UTF-8 agrees with code point order, but the byte encoding itself is not modelled.
