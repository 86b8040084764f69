// The outside world of bin/link.js: the yarn commands it runs through
// child_process.exec, the filesystem probes it makes, and the path helpers.
// Everything the script cannot decide itself is an oracle field of World.
module Shell {

  type Path = string

  /** One yarn invocation: the command line and the directory it runs in. */
  datatype Command =
    | Register(cwd: Path)                // `yarn link` in the package's localPath
    | LinkInto(name: string, cwd: Path)  // `yarn link <name>` in a workspace
    | UnlinkFrom(name: string, cwd: Path) // `yarn unlink <name>` in a workspace
    | Unregister(cwd: Path)              // `yarn unlink` in the package's localPath
    | Install(cwd: Path)                 // `yarn` in a workspace
  {
    /** The command line handed to the shell. */
    function Line(): string {
      match this
      case Register(_) => "yarn link"
      case LinkInto(name, _) => "yarn link " + name
      case UnlinkFrom(name, _) => "yarn unlink " + name
      case Unregister(_) => "yarn unlink"
      case Install(_) => "yarn"
    }
  }

  /** The process working directory, Node's path module, and the oracles.
      `exec`, `hasModule` and `isLinked` see the commands issued so far, so
      the filesystem they observe may change as yarn runs. */
  datatype World = World(
    cwd: Path,
    isAbsolute: Path -> bool,                  // path.isAbsolute
    resolve: seq<Path> -> Path,                // path.resolve(...segments)
    exec: (seq<Command>, Command) -> bool,     // exit status 0?
    hasModule: (seq<Command>, Path) -> bool,   // fs.readdirSync succeeds
    isLinked: (seq<Command>, Path) -> bool)    // fs.lstatSync(..).isSymbolicLink()

  /** A workspace path made absolute against the working directory. */
  function FormatPrjPath(w: World, prjPath: Path): (r: Path)
    ensures w.isAbsolute(prjPath) ==> r == prjPath
  {
    if w.isAbsolute(prjPath) then prjPath else w.resolve([w.cwd, prjPath])
  }

  /** When path.resolve yields an absolute path, formatting gives an
      absolute path and formatting it again changes nothing. */
  lemma FormatPrjPathIdempotent(w: World, prjPath: Path)
    requires w.isAbsolute(w.resolve([w.cwd, prjPath]))
    ensures w.isAbsolute(FormatPrjPath(w, prjPath))
    ensures FormatPrjPath(w, FormatPrjPath(w, prjPath)) == FormatPrjPath(w, prjPath)
  {
  }

  /** Where the module `name` lives inside a workspace. */
  function ResolveModulePath(w: World, name: string, workspace: Path): Path {
    w.resolve([workspace, "node_modules", name])
  }

  /** A command line starts with "yarn link" exactly for the two link
      commands. */
  lemma YarnLinkLine(x: Command)
    ensures "yarn link" <= x.Line() <==> x.Register? || x.LinkInto?
  {
    match x
    case Register(_) =>
    case LinkInto(name, _) =>
      assert x.Line() == "yarn link" + (" " + name);
    case UnlinkFrom(name, _) =>
      assert x.Line()[5] == 'u';
    case Unregister(_) =>
      assert x.Line()[5] == 'u';
    case Install(_) =>
  }
}

