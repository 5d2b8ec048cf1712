/**
 * The host filesystem as the keystore tool sees it: a map from path to
 * node. Paths are keys written out in full; the map is not required to be
 * a tree.
 */
module Files {

  /** What `os.stat` reports that the tool uses: owner, group and mode bits. */
  datatype Meta = Meta(uid: nat, gid: nat, mode: nat)

  type Bytes = seq<bv8>

  datatype Node =
    | DirNode(meta: Meta)
    | FileNode(meta: Meta, content: Bytes)

  type FileSystem = map<string, Node>

  /** `os.path.isdir` */
  predicate IsDir(fs: FileSystem, p: string)
  {
    p in fs && fs[p].DirNode?
  }

  /** `os.path.isfile` */
  predicate IsFile(fs: FileSystem, p: string)
  {
    p in fs && fs[p].FileNode?
  }

  /** 0o10000: the mode bits above the permission, setuid, setgid and sticky bits. */
  const ModeTypeUnit: nat := 4096

  /** The bits `chmod` keeps of a mode (`stat.S_IMODE`): permissions, setuid, setgid, sticky. */
  function PermissionBits(mode: nat): nat
  {
    mode % ModeTypeUnit
  }
}
