/** The output directory as a map from paths to nodes, and the three ways writer.go changes it. */
module Files {
  import opened Wrappers
  import opened Bytes

  /** A path is the sequence of its names. */
  type Path = seq<bytes>

  datatype Node = Dir | File(data: bytes, executable: bool) | Link(target: bytes)

  type Tree = map<Path, Node>

  /** mkdir, where a directory that is already there will do. */
  function MkDir(fs: Tree, path: Path): Option<Tree> {
    if path !in fs then Some(fs[path := Dir]) else if fs[path].Dir? then Some(fs) else None
  }

  /** Create or truncate a regular file; a directory or a symbolic link in its place is an error. */
  function PutFile(fs: Tree, path: Path, data: bytes, executable: bool): Option<Tree> {
    if path in fs && !fs[path].File? then None else Some(fs[path := File(data, executable)])
  }

  /** symlink(2): nothing may be there yet. */
  function PutLink(fs: Tree, path: Path, target: bytes): Option<Tree> {
    if path in fs then None else Some(fs[path := Link(target)])
  }

  function Leaves(fs: Tree): set<Path> {
    set p | p in fs && !fs[p].Dir?
  }

  class FileSystem {
    var nodes: Tree

    constructor ()
      ensures nodes == map[]
    {
      nodes := map[];
    }

    method EnsureDir(path: Path) returns (ok: bool)
      modifies this
      ensures ok <==> MkDir(old(nodes), path).Some?
      ensures nodes == if ok then MkDir(old(nodes), path).value else old(nodes)
    {
      if path !in nodes {
        nodes := nodes[path := Dir];
        return true;
      }
      return nodes[path].Dir?;
    }

    method WriteFile(path: Path, data: bytes, executable: bool) returns (ok: bool)
      modifies this
      ensures ok <==> PutFile(old(nodes), path, data, executable).Some?
      ensures nodes == if ok then PutFile(old(nodes), path, data, executable).value else old(nodes)
    {
      if path in nodes && !nodes[path].File? {
        return false;
      }
      nodes := nodes[path := File(data, executable)];
      return true;
    }

    method CreateSymlink(path: Path, target: bytes) returns (ok: bool)
      modifies this
      ensures ok <==> PutLink(old(nodes), path, target).Some?
      ensures nodes == if ok then PutLink(old(nodes), path, target).value else old(nodes)
    {
      if path in nodes {
        return false;
      }
      nodes := nodes[path := Link(target)];
      return true;
    }
  }
}
