/** The vocabulary shared by the whole model: bytes, names, paths, tree entries
    and object identifiers. */
module GitTypes {

  /** An unsigned 8-bit integer. */
  type byte = x: int | 0 <= x < 256
  type Bytes = seq<byte>

  const SLASH: byte := 47

  /** One component of a path: not empty and free of `/`. */
  type Name = n: Bytes | n != [] && SLASH !in n witness [97]

  /** A repository-relative path, split at its slashes. The root is `[]`. */
  type Path = seq<Name>

  datatype Option<+T> = None | Some(value: T)

  datatype Result<+T, +E> = Ok(value: T) | Err(error: E)

  /** File modes with a meaning of their own; every other mode is a file. */
  const MODE_TREE: nat := 0x4000    // octal 040000
  const MODE_GITLINK: nat := 0xE000 // octal 0160000
  const MODE_FILE: nat := 0x81A4    // octal 0100644

  /** One line of a tree object; `H` is the type of hashes. */
  datatype TreeEntry<+H> = TreeEntry(mode: nat, name: Name, hash: H)

  /** What a directory says about one of its names. */
  datatype Link<+H> = Link(mode: nat, hash: H)

  /** An author or committer line, and what a commit says besides its tree and parent. */
  datatype Person = Person(name: Bytes, email: Bytes, timestamp: int, timezone: Bytes)
  datatype CommitText = CommitText(author: Person, committer: Person, message: Bytes)

  /** An object identifier. Hashing is modelled as an injective constructor
      over an object's type and content, so equal identifiers are equal objects. */
  datatype Hash =
    | Zero
    | BlobId(data: Bytes)
    | TreeId(entries: seq<TreeEntry<Hash>>)
    | CommitId(tree: Hash, parent: Hash, text: CommitText)

  /** `p` lies at or below `d`. */
  predicate Under(d: Path, p: Path) {
    |d| <= |p| && p[..|d|] == d
  }

  function Parent(p: Path): Path
    requires p != []
  {
    p[..|p| - 1]
  }
}
