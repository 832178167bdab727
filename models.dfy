/** The record types of models/models.go, restricted to the fields the tree
    helpers read or write. Go structs are values, so each is a datatype. */
module Models {

  /** models.CachedGroup: one row of the group cache. */
  datatype CachedGroup = CachedGroup(
    id: int,
    name: string,
    path: string,
    fullPath: string,
    parentID: int,
    webURL: string)

  /** models.CachedProject: one row of the project cache. */
  datatype CachedProject = CachedProject(
    id: int,
    name: string,
    nameWithNamespace: string,
    path: string,
    pathWithNamespace: string,
    webURL: string,
    groupID: int)

  /** models.Project as shown on the settings page. `namespaceID` and
      `namespacePath` are the two fields of the nested Namespace struct that
      the tree builder fills in. */
  datatype Project = Project(
    id: int,
    name: string,
    nameWithNamespace: string,
    path: string,
    pathWithNamespace: string,
    webURL: string,
    namespaceID: int,
    namespacePath: string,
    selected: bool,
    level: int)

  /** models.Group: a group with its nested subgroups and projects and the
      page's per-node state (indentation level, expanded, selected). */
  datatype Group = Group(
    id: int,
    name: string,
    path: string,
    fullPath: string,
    webURL: string,
    parentID: int,
    subgroups: seq<Group>,
    projects: seq<Project>,
    level: int,
    hasChildren: bool,
    expanded: bool,
    selected: bool)
}
