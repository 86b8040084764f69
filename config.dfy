// The contents of .linkrc.json: package name -> { localPath, workspace? },
// in the order Object.keys lists the package names.
module LinkConfig {
  import opened Shell

  datatype Option<T> = None | Some(value: T)

  /** One entry of the configuration. */
  datatype Package = Package(name: string, localPath: Path, workspace: Option<seq<Path>>)

  type Config = seq<Package>

  /** The workspace list used when a package gives none. */
  const DefaultWorkspace: seq<Path> := ["."]

  function Workspaces(p: Package): seq<Path> {
    if p.workspace.Some? then p.workspace.value else DefaultWorkspace
  }

  /** The number of workspace entries over all packages. */
  function TotalWorkspaces(c: Config): nat {
    if c == [] then 0 else |Workspaces(c[0])| + TotalWorkspaces(c[1..])
  }

  /** Where package i's block starts in a plan that gives every package one
      command for itself and one per workspace entry. */
  function Offset(c: Config, i: nat): nat
    requires i <= |c|
  {
    i + TotalWorkspaces(c[..i])
  }
}
