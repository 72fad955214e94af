/**
 * The file system object every node points to. Its helpers come from code
 * outside this model (the blob and time packages and the file-system glue),
 * so each is a function this object is constructed with.
 */
module CamliFs {
  import opened Base
  import opened Graph

  class CamliFileSystem {
    /** `blob.ParseOrZero`: the ref a string names, `NoRef` when it does not parse (`blob.Parse` fails). */
    const parse: string -> BlobRef
    /** `blob.Ref.Sum64`: the inode number of a ref. */
    const sum64: BlobRef -> uint64
    /** `isDir`: whether a described permanode is directory-shaped. */
    const isDir: Attrs -> bool
    /** `time.Time.String`: a claim date's rendered name (not assumed injective). */
    const dateString: Time -> string
    /** `isWriteFlags`: whether open flags ask for write access. */
    const isWriteFlags: bv32 -> bool
    /** `serverStart`: the process start time, the fallback timestamp. */
    const serverStart: Time
    /** The process's effective user and group ids. */
    const uid: uint32
    const gid: uint32

    constructor (parse: string -> BlobRef, sum64: BlobRef -> uint64, isDir: Attrs -> bool,
                 dateString: Time -> string, isWriteFlags: bv32 -> bool,
                 serverStart: Time, uid: uint32, gid: uint32)
      ensures this.parse == parse && this.sum64 == sum64 && this.isDir == isDir
      ensures this.dateString == dateString && this.isWriteFlags == isWriteFlags
      ensures this.serverStart == serverStart && this.uid == uid && this.gid == gid
    {
      this.parse := parse;
      this.sum64 := sum64;
      this.isDir := isDir;
      this.dateString := dateString;
      this.isWriteFlags := isWriteFlags;
      this.serverStart := serverStart;
      this.uid := uid;
      this.gid := gid;
    }
  }
}
