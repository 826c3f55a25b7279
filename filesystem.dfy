/** The slice of the disk the launcher touches: paths as lists of segments
    (what `path.join` builds) and a map from path to file or directory. The
    launcher's on-disk layout `<installPath>/Ether/<gameFolderName>` is defined
    here once, because the installer and the launcher compute it alike. */
module FileSystem {

  import opened Wrappers

  type Path = seq<string>

  /** A directory records whether it can be listed; `readdir` on one that
      cannot throws, like any other permission error. */
  datatype Node = File | Dir(readable: bool)

  type Fs = map<Path, Node>

  /** The fixed namespace folder every game is installed under. */
  const Namespace: string := "Ether"

  /** The archive's file name inside the game directory. */
  const ArchiveName: string := "game.zip"

  /** `path.join(installPath, 'Ether', gameFolderName)` */
  function GamePath(installPath: Path, gameFolderName: string): (p: Path)
    ensures |p| == |installPath| + 2 && p[..|installPath|] == installPath
    ensures p[|installPath|] == Namespace && p[|installPath| + 1] == gameFolderName
  {
    installPath + [Namespace, gameFolderName]
  }

  /** `path.join(gamePath, 'game.zip')` */
  function ArchivePath(gamePath: Path): (p: Path)
    ensures |p| == |gamePath| + 1 && p[..|gamePath|] == gamePath && p[|gamePath|] == ArchiveName
  {
    gamePath + [ArchiveName]
  }

  /** Two installs land in the same directory only when both the base path
      and the game folder agree. */
  lemma GamePathInjective(a: Path, f: string, b: Path, g: string)
    requires GamePath(a, f) == GamePath(b, g)
    ensures a == b && f == g
  {
  }

  /** The path as the error messages print it, segments joined by '/'. */
  function Render(p: Path): string
  {
    if |p| == 0 then "" else if |p| == 1 then p[0] else Render(p[..|p| - 1]) + "/" + p[|p| - 1]
  }

  /** `q` is `p` itself or lies inside it. */
  predicate Within(q: Path, p: Path) {
    |p| <= |q| && q[..|p|] == p
  }

  /** The names `readdir(p)` lists: the next segment of every path strictly
      inside `p`. */
  function Entries(fs: Fs, p: Path): (names: set<string>)
    ensures forall n :: n in names <==> exists q :: q in fs && Within(q, p) && |q| > |p| && q[|p|] == n
  {
    set q | q in fs && Within(q, p) && |q| > |p| :: q[|p|]
  }

  /** `fs.stat(p)`: the node, or ENOENT. */
  function Stat(fs: Fs, p: Path): (r: Result<Node>)
    ensures r.Ok? <==> p in fs
    ensures r.Ok? ==> r.value == fs[p]
  {
    if p in fs then Ok(fs[p]) else Err("ENOENT: no such file or directory, stat '" + Render(p) + "'")
  }

  /** `fs.readdir(p)`: the entry names, or the error a file, a missing path or
      an unreadable directory raises. */
  function Readdir(fs: Fs, p: Path): (r: Result<set<string>>)
    ensures r.Ok? <==> p in fs && fs[p] == Dir(true)
    ensures r.Ok? ==> r.value == Entries(fs, p)
  {
    if p !in fs then Err("ENOENT: no such file or directory, scandir '" + Render(p) + "'")
    else if fs[p].File? then Err("ENOTDIR: not a directory, scandir '" + Render(p) + "'")
    else if !fs[p].readable then Err("EACCES: permission denied, scandir '" + Render(p) + "'")
    else Ok(Entries(fs, p))
  }

  /** `fs.rm(p, {recursive: true, force: true})`: everything at or inside `p`
      goes, and a missing `p` is not an error. */
  function RemoveTree(fs: Fs, p: Path): (fs': Fs)
    ensures forall q :: q in fs' <==> q in fs && !Within(q, p)
    ensures forall q :: q in fs' ==> fs'[q] == fs[q]
  {
    map q | q in fs && !Within(q, p) :: fs[q]
  }

  /** `fs.unlink(p)`: removes a file; on anything else it fails, and the
      caller gets `None`. */
  function Unlink(fs: Fs, p: Path): (r: Option<Fs>)
    ensures r.Some? <==> p in fs && fs[p].File?
    ensures r.Some? ==> r.value == fs - {p}
  {
    if p in fs && fs[p].File? then Some(fs - {p}) else None
  }
}
