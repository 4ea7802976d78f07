/** The part of Node's `fs` module the content loader uses, over a filesystem given as
    a value. A path is the list of its components below the working directory. */
module FileSystem {
  import opened Wrappers

  type Path = seq<string>

  /** A regular file with its text, or a directory with its listing in `readdirSync` order. */
  datatype Node = File(contents: string) | Directory(listing: seq<string>)

  /** The exceptions a call can throw: ENOENT, ENOTDIR and EISDIR. */
  datatype FsError = NoEntry(path: Path) | NotADirectory(path: Path) | IsADirectory(path: Path)

  datatype Fs = Fs(nodes: map<Path, Node>)

  /** `fs.existsSync(p)`. */
  predicate Exists(fs: Fs, p: Path) {
    p in fs.nodes
  }

  predicate IsDirectoryAt(fs: Fs, p: Path) {
    p in fs.nodes && fs.nodes[p].Directory?
  }

  predicate IsFileAt(fs: Fs, p: Path) {
    p in fs.nodes && fs.nodes[p].File?
  }

  /** `fs.readdirSync(p)`. */
  function ReadDir(fs: Fs, p: Path): (r: Result<seq<string>, FsError>)
    ensures r.Ok? <==> IsDirectoryAt(fs, p)
    ensures r.Ok? ==> r.value == fs.nodes[p].listing
  {
    if p !in fs.nodes then Err(NoEntry(p))
    else match fs.nodes[p]
      case Directory(listing) => Ok(listing)
      case File(_) => Err(NotADirectory(p))
  }

  /** `fs.statSync(p).isDirectory()`. */
  function StatIsDirectory(fs: Fs, p: Path): (r: Result<bool, FsError>)
    ensures r.Ok? <==> Exists(fs, p)
    ensures r.Ok? ==> (r.value <==> IsDirectoryAt(fs, p))
  {
    if p !in fs.nodes then Err(NoEntry(p)) else Ok(fs.nodes[p].Directory?)
  }

  /** `fs.readFileSync(p, 'utf8')`. */
  function ReadFile(fs: Fs, p: Path): (r: Result<string, FsError>)
    ensures r.Ok? <==> IsFileAt(fs, p)
    ensures r.Ok? ==> r.value == fs.nodes[p].contents
  {
    if p !in fs.nodes then Err(NoEntry(p))
    else match fs.nodes[p]
      case File(contents) => Ok(contents)
      case Directory(_) => Err(IsADirectory(p))
  }
}
