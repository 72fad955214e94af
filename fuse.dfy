/** The pieces of the FUSE node protocol the view produces. */
module Fuse {
  import opened Base

  /** The protocol's error numbers used by the view. */
  datatype Errno = EIO | ENOENT | EPERM

  /** A protocol answer: a value, or an error number. */
  datatype Result<+T> = Ok(value: T) | Err(errno: Errno)

  /** `fuse.Dirent`: one directory entry. */
  datatype Dirent = Dirent(name: string, inode: uint64)

  /** `fuse.Attr`: node metadata. */
  datatype Attr = Attr(
    inode: uint64,
    mode: bv32,
    uid: uint32,
    gid: uint32,
    size: uint64,
    blocks: uint64,
    mtime: Time,
    atime: Time,
    ctime: Time,
    crtime: Time)

  /** `os.ModeDir` and `os.ModeSymlink`: the type bits of an `os.FileMode`. */
  const ModeDir: bv32 := 0x8000_0000
  const ModeSymlink: bv32 := 0x0800_0000

  /** Permission bits: octal 0400 (owner read), 0500 (owner read and execute), 0700. */
  const OwnerRead: bv32 := 0x100
  const OwnerReadExec: bv32 := 0x140
  const OwnerAll: bv32 := 0x1C0

  /** Octal 0222: the write bits of owner, group and others. */
  const AnyWrite: bv32 := 0x92

  /** Octal 0777: all permission bits. */
  const PermBits: bv32 := 0x1FF

  /** `fuse.OpenDirectIO`, bit 0 of the open response flags. */
  const OpenDirectIO: bv32 := 1
}
