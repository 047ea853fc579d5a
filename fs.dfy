/**
 * The slice of Node's synchronous `fs` API that the cleanup engine uses, over an
 * abstract filesystem: a map from path to node, plus the set of paths whose
 * reads and whose writes the operating system refuses.
 */
module Fs {
  import opened Wrappers
  import opened Strings

  type Path = string

  /** A regular file with its text, or a directory with its listing. */
  datatype Node = File(content: string) | Dir(entries: seq<string>)

  type Tree = map<Path, Node>

  /** The error codes Node reports for the failures modelled here. */
  datatype Errno = ENOENT | EISDIR | ENOTDIR | EACCES

  /** Paths that cannot be read (or listed), and paths that cannot be written or removed. */
  datatype Perms = Perms(noRead: set<Path>, noWrite: set<Path>)

  /** `fs.readFileSync(p, 'utf8')`. */
  function ReadFile(t: Tree, perms: Perms, p: Path): Result<string, Errno>
  {
    if p !in t then Err(ENOENT)
    else if t[p].Dir? then Err(EISDIR)
    else if p in perms.noRead then Err(EACCES)
    else Ok(t[p].content)
  }

  /** `fs.readdirSync(p)`. */
  function ReadDir(t: Tree, perms: Perms, p: Path): Result<seq<string>, Errno>
  {
    if p !in t then Err(ENOENT)
    else if t[p].File? then Err(ENOTDIR)
    else if p in perms.noRead then Err(EACCES)
    else Ok(t[p].entries)
  }

  /** `fs.unlinkSync(p)`: removes a file; a directory or a protected path throws. */
  function Unlink(t: Tree, perms: Perms, p: Path): Result<Tree, Errno>
  {
    if p !in t then Err(ENOENT)
    else if t[p].Dir? then Err(EISDIR)
    else if p in perms.noWrite then Err(EACCES)
    else Ok(t - {p})
  }

  /** `fs.writeFileSync(p, c)`: replaces (or creates) the file's content. */
  function WriteFile(t: Tree, perms: Perms, p: Path, c: string): Result<Tree, Errno>
  {
    if p in t && t[p].Dir? then Err(EISDIR)
    else if p in perms.noWrite then Err(EACCES)
    else Ok(t[p := File(c)])
  }

  /** `q` is `root` itself or lies somewhere below it. */
  predicate InSubtree(q: Path, root: Path)
  {
    q == root || StartsWith(q, root + "/")
  }

  /** `fs.rmSync(root, { recursive: true, force: true })`; a protected root throws. */
  function RemoveTree(t: Tree, perms: Perms, root: Path): Result<Tree, Errno>
  {
    if root in perms.noWrite then Err(EACCES)
    else Ok(map q | q in t && !InSubtree(q, root) :: t[q])
  }

  /** Removable by `unlinkSync`: an existing file the system lets us remove. */
  predicate Removable(t: Tree, perms: Perms, p: Path)
  {
    p in t && t[p].File? && p !in perms.noWrite
  }

  /** `x` has no path `b` lacks, keeps every file a file, and leaves every directory as it was. */
  ghost predicate Resembles(x: Tree, b: Tree)
  {
    && x.Keys <= b.Keys
    && forall q :: q in x ==> (x[q].Dir? <==> b[q].Dir?) && (b[q].Dir? ==> x[q] == b[q])
  }

  lemma ResemblesTrans(x: Tree, y: Tree, z: Tree)
    requires Resembles(x, y) && Resembles(y, z)
    ensures Resembles(x, z)
  {
  }

  /** `x` and `y` have the same node at `f`, or neither has one. */
  ghost predicate AgreeAt(x: Tree, y: Tree, f: Path)
  {
    (f in x <==> f in y) && (f in x ==> x[f] == y[f])
  }

  /** The live filesystem: the one piece of state the cleanup engine changes in place. */
  class FileSystem {
    var tree: Tree
    const perms: Perms

    constructor (tree: Tree, perms: Perms)
      ensures this.tree == tree && this.perms == perms
    {
      this.tree := tree;
      this.perms := perms;
    }

    /** `fs.existsSync(p)`: true for files and directories alike; never throws. */
    predicate ExistsSync(p: Path)
      reads this
    {
      p in tree
    }

    function ReadFileSync(p: Path): Result<string, Errno>
      reads this
    {
      ReadFile(tree, perms, p)
    }

    function ReaddirSync(p: Path): Result<seq<string>, Errno>
      reads this
    {
      ReadDir(tree, perms, p)
    }

    method UnlinkSync(p: Path) returns (err: Option<Errno>)
      modifies this
      ensures err.None? <==> Removable(old(tree), perms, p)
      ensures tree == if err.None? then old(tree) - {p} else old(tree)
    {
      match Unlink(tree, perms, p)
      case Ok(t) => tree := t; err := None;
      case Err(e) => err := Some(e);
    }

    method WriteFileSync(p: Path, c: string) returns (err: Option<Errno>)
      modifies this
      ensures err.None? <==> WriteFile(old(tree), perms, p, c).Ok?
      ensures tree == if err.None? then old(tree)[p := File(c)] else old(tree)
    {
      match WriteFile(tree, perms, p, c)
      case Ok(t) => tree := t; err := None;
      case Err(e) => err := Some(e);
    }

    method RmSync(root: Path) returns (err: Option<Errno>)
      modifies this
      ensures err.None? <==> root !in perms.noWrite
      ensures err.None? ==> tree == RemoveTree(old(tree), perms, root).value
      ensures err.Some? ==> tree == old(tree) && err.value == RemoveTree(old(tree), perms, root).error
    {
      match RemoveTree(tree, perms, root)
      case Ok(t) => tree := t; err := None;
      case Err(e) => err := Some(e);
    }
  }
}
