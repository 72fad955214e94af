/**
 * The versioned read-only nodes below the versions root:
 *  - RoDirV, a directory made of one permanode's `camliPath:<name>` attributes;
 *  - RoFileLikeDir, a file shown as a directory of its versions, one per
 *    `camliContent` claim;
 *  - RoFileVersion, one version of a file, a read-only leaf.
 * Both directories fill their `children` map once, on first use, and keep it.
 */
module Rover {
  import opened Base
  import opened Graph
  import opened Fuse
  import opened CamliFs

  /** The attribute prefix that names a directory entry. */
  const PathPrefix: string := "camliPath:"

  /** A child node: one of the three node types a directory of this view holds. */
  datatype Node = DirV(d: RoDirV) | FileLike(f: RoFileLikeDir) | Version(v: RoFileVersion)

  /** What a newly made node is, by its construction-time fields. */
  datatype Shape =
    | DirVShape(permanode: BlobRef, name: string, xattrs: Option<Attrs>)
    | FileLikeShape(permanode: BlobRef, name: string, symLink: bool, target: string, xattrs: Option<Attrs>)
    | VersionShape(permanode: BlobRef, name: string, content: BlobRef, size: int64,
                   symLink: bool, target: string, mtime: Time, atime: Time)

  function ShapeOf(n: Node): Shape {
    match n
    case DirV(d) => DirVShape(d.permanode, d.name, d.xattrs)
    case FileLike(f) => FileLikeShape(f.permanode, f.name, f.symLink, f.target, f.xattrs)
    case Version(v) => VersionShape(v.permanode, v.name, v.content, v.size, v.symLink, v.target, v.mtime, v.atime)
  }

  function Shapes(children: map<string, Node>): (r: map<string, Shape>)
    ensures r.Keys == children.Keys
  {
    map name | name in children :: ShapeOf(children[name])
  }

  function NodeObject(n: Node): object {
    match n
    case DirV(d) => d
    case FileLike(f) => f
    case Version(v) => v
  }

  function NodeFs(n: Node): CamliFileSystem {
    match n
    case DirV(d) => d.fs
    case FileLike(f) => f.fs
    case Version(v) => v.fs
  }

  /** A node nobody has listed yet: a directory child still has no `children`. */
  ghost predicate Unpopulated(n: Node)
    reads NodeObject(n)
  {
    match n
    case DirV(d) => d.children.None?
    case FileLike(f) => f.children.None?
    case Version(_) => true
  }

  /** The inode `ReadDir` reports for a child: its permanode's hash for a RoDirV or a RoFileVersion, 0 otherwise. */
  function DirentInode(sum64: BlobRef -> uint64, n: Node): (ino: uint64)
    ensures n.FileLike? ==> ino == 0
    ensures !n.FileLike? ==> ino == sum64(ShapeOf(n).permanode)
  {
    match n
    case DirV(d) => sum64(d.permanode)
    case Version(v) => sum64(v.permanode)
    case FileLike(_) => 0
  }

  /** `ents` lists each key of `children` exactly once, with the child's inode. */
  ghost predicate ListingOf(ents: seq<Dirent>, children: map<string, Node>, sum64: BlobRef -> uint64) {
    && |ents| == |children|
    && (forall i, j :: 0 <= i < j < |ents| ==> ents[i].name != ents[j].name)
    && (forall i :: 0 <= i < |ents| ==> ents[i].name in children && ents[i].inode == DirentInode(sum64, children[ents[i].name]))
    && (forall name :: name in children ==> exists i :: 0 <= i < |ents| && ents[i].name == name)
  }

  /**
   * The listing loop shared by both directory types' `ReadDir`: one entry per
   * child, in the map's (unspecified) iteration order.
   */
  method ListChildren(children: map<string, Node>, sum64: BlobRef -> uint64) returns (ents: seq<Dirent>)
    ensures |ents| == |children|
    ensures forall i, j :: 0 <= i < j < |ents| ==> ents[i].name != ents[j].name
    ensures forall i :: 0 <= i < |ents| ==> ents[i].name in children && ents[i].inode == DirentInode(sum64, children[ents[i].name])
    ensures forall name :: name in children ==> exists i :: 0 <= i < |ents| && ents[i].name == name
  {
    ents := [];
    var todo := children.Keys;
    while todo != {}
      invariant todo <= children.Keys
      invariant |ents| + |todo| == |children.Keys|
      invariant forall i :: 0 <= i < |ents| ==> ents[i].name in children && ents[i].name !in todo
      invariant forall i :: 0 <= i < |ents| ==> ents[i].inode == DirentInode(sum64, children[ents[i].name])
      invariant forall i, j :: 0 <= i < j < |ents| ==> ents[i].name != ents[j].name
      invariant forall name :: name in children && name !in todo ==> exists i :: 0 <= i < |ents| && ents[i].name == name
      decreases todo
    {
      var name :| name in todo;
      ghost var prev := ents;
      ents := ents + [Dirent(name, DirentInode(sum64, children[name]))];
      forall nm | nm in children && nm !in todo - {name}
        ensures exists i :: 0 <= i < |ents| && ents[i].name == nm
      {
        if nm == name {
          assert ents[|ents| - 1].name == nm;
        } else {
          var i :| 0 <= i < |prev| && prev[i].name == nm;
          assert ents[i].name == nm;
        }
      }
      todo := todo - {name};
    }
  }

  // ---------------------------------------------------------------------------
  // roDirV: the entries of one directory permanode

  /** A described blob's permanode attributes; a blob without a permanode part reads as having none. */
  function PermAttrs(db: DescribedBlob): Attrs {
    if db.permanode.Some? then db.permanode.value else map[]
  }

  predicate IsPathKey(k: string) {
    |PathPrefix| <= |k| && k[..|PathPrefix|] == PathPrefix
  }

  /**
   * The child an entry `camliPath:<name>` whose first value is `childRef`
   * becomes, or None when it is skipped. A symlink target comes first, then a
   * directory-shaped permanode, then a `camliContent` naming a described
   * blob of camli type "file"; anything else, and an undescribed child, is
   * skipped. Every child made is primed with the child's own attributes.
   */
  function ChildShape(fs: CamliFileSystem, meta: Meta, childRef: string, name: string): (r: Option<Shape>)
    ensures r.Some? ==> childRef in meta
    ensures r.Some? ==> r.value.permanode == fs.parse(childRef) && r.value.name == name
    ensures r.Some? ==> !r.value.VersionShape? && r.value.xattrs == Some(PermAttrs(meta[childRef]))
    ensures (r.Some? && r.value.FileLikeShape? && r.value.symLink) <==>
            (childRef in meta && AttrGet(PermAttrs(meta[childRef]), "camliSymlinkTarget") != "")
    ensures r.Some? && r.value.FileLikeShape? && r.value.symLink ==>
            r.value.target == AttrGet(PermAttrs(meta[childRef]), "camliSymlinkTarget")
    ensures (r.Some? && r.value.DirVShape?) <==>
            (childRef in meta && AttrGet(PermAttrs(meta[childRef]), "camliSymlinkTarget") == ""
             && fs.isDir(PermAttrs(meta[childRef])))
    ensures (r.Some? && r.value.FileLikeShape? && !r.value.symLink) <==>
            (childRef in meta && AttrGet(PermAttrs(meta[childRef]), "camliSymlinkTarget") == ""
             && !fs.isDir(PermAttrs(meta[childRef]))
             && AttrGet(PermAttrs(meta[childRef]), "camliContent") in meta
             && AttrGet(PermAttrs(meta[childRef]), "camliContent") != ""
             && meta[AttrGet(PermAttrs(meta[childRef]), "camliContent")].camliType == "file")
    ensures r.Some? && r.value.FileLikeShape? && !r.value.symLink ==> r.value.target == ""
  {
    if childRef !in meta then None
    else
      var attrs := PermAttrs(meta[childRef]);
      var ref := fs.parse(childRef);
      var target := AttrGet(attrs, "camliSymlinkTarget");
      if target != "" then Some(FileLikeShape(ref, name, true, target, Some(attrs)))
      else if fs.isDir(attrs) then Some(DirVShape(ref, name, Some(attrs)))
      else
        var contentRef := AttrGet(attrs, "camliContent");
        if contentRef == "" || contentRef !in meta || meta[contentRef].camliType != "file" then None
        else Some(FileLikeShape(ref, name, false, "", Some(attrs)))
  }

  /** The child the attribute `camliPath:<name>` makes, if any: only a non-empty value list counts, by its first value. */
  function PathEntry(fs: CamliFileSystem, meta: Meta, attrs: Attrs, name: string): Option<Shape> {
    var k := PathPrefix + name;
    if k !in attrs || |attrs[k]| < 1 then None else ChildShape(fs, meta, attrs[k][0], name)
  }

  /** The entry names the attribute keys `camliPath:<name>` spell. */
  function PathNames(attrs: Attrs): set<string> {
    set k | k in attrs && IsPathKey(k) :: k[|PathPrefix|..]
  }

  /** The children a directory permanode with attributes `attrs` lists. */
  function PathEntries(fs: CamliFileSystem, meta: Meta, attrs: Attrs): map<string, Shape> {
    map name | name in PathNames(attrs) && PathEntry(fs, meta, attrs, name).Some? :: PathEntry(fs, meta, attrs, name).value
  }

  /** What a first `populate` does: whether it reports success, the children it commits (if any), and the requests it sends. */
  datatype Populated = Populated(ok: bool, entries: Option<map<string, Shape>>, issued: seq<Request>)

  function DirVDescribe(permanode: BlobRef): DescribeRequest {
    DescribeRequest([permanode], 3, ZeroTime)
  }

  /**
   * `roDirV.populate` on an unpopulated node: one describe at depth 3. A
   * failed describe reports success and commits nothing; a result that does
   * not describe the node's own permanode reports failure and commits nothing.
   */
  function DirVPopulate(fs: CamliFileSystem, permanode: BlobRef, client: Client): (r: Populated)
    ensures r.issued == [DescribeCall(DirVDescribe(permanode))]
    ensures r.entries.Some? <==>
      client.describe(DirVDescribe(permanode)).Answered? && permanode.String() in client.describe(DirVDescribe(permanode)).value
    ensures !r.ok <==>
      client.describe(DirVDescribe(permanode)).Answered? && permanode.String() !in client.describe(DirVDescribe(permanode)).value
  {
    var issued := [DescribeCall(DirVDescribe(permanode))];
    match client.describe(DirVDescribe(permanode))
    case Failed => Populated(true, None, issued)
    case Answered(meta) =>
      if permanode.String() !in meta then Populated(false, None, issued)
      else Populated(true, Some(PathEntries(fs, meta, PermAttrs(meta[permanode.String()]))), issued)
  }

  lemma PathPrefixConcat(name: string)
    ensures IsPathKey(PathPrefix + name) && (PathPrefix + name)[|PathPrefix|..] == name
  {
    assert (PathPrefix + name)[..|PathPrefix|] == PathPrefix;
  }

  lemma {:induction false} PathNamesSpec(attrs: Attrs, name: string)
    ensures name in PathNames(attrs) <==> PathPrefix + name in attrs
  {
    PathPrefixConcat(name);
    if name in PathNames(attrs) {
      var k :| k in attrs && IsPathKey(k) && k[|PathPrefix|..] == name;
      assert k == k[..|PathPrefix|] + k[|PathPrefix|..];
    }
  }

  /**
   * A directory lists `name` exactly when it has an attribute
   * `camliPath:<name>` with at least one value, that first value is described,
   * and the described child is a symlink, a directory or a file.
   */
  lemma PathEntriesKeys(fs: CamliFileSystem, meta: Meta, attrs: Attrs, name: string)
    ensures name in PathEntries(fs, meta, attrs) <==>
      && PathPrefix + name in attrs
      && |attrs[PathPrefix + name]| >= 1
      && attrs[PathPrefix + name][0] in meta
      && ChildShape(fs, meta, attrs[PathPrefix + name][0], name).Some?
    ensures name in PathEntries(fs, meta, attrs) ==>
      PathEntries(fs, meta, attrs)[name] == ChildShape(fs, meta, attrs[PathPrefix + name][0], name).value
  {
    PathNamesSpec(attrs, name);
  }

  /** Attributes that are not `camliPath:` keys do not change the listing. */
  lemma {:induction false} OtherAttributesIgnored(fs: CamliFileSystem, meta: Meta, attrs: Attrs, k: string, v: seq<string>)
    requires !IsPathKey(k)
    ensures PathEntries(fs, meta, attrs[k := v]) == PathEntries(fs, meta, attrs)
  {
    var a, b := PathEntries(fs, meta, attrs[k := v]), PathEntries(fs, meta, attrs);
    forall name
      ensures name in a <==> name in b
      ensures name in a ==> a[name] == b[name]
    {
      PathNamesSpec(attrs[k := v], name);
      PathNamesSpec(attrs, name);
      PathPrefixConcat(name);
      assert PathPrefix + name != k;
    }
  }

  /** The only entry name an attribute key can make, and (for a `camliPath:` key with a value) the entry it makes. */
  lemma PathKeyEntry(fs: CamliFileSystem, meta: Meta, attrs: Attrs, k: string)
    requires k in attrs
    ensures !IsPathKey(k) || |attrs[k]| < 1 ==> forall nm :: PathPrefix + nm == k ==> PathEntry(fs, meta, attrs, nm).None?
    ensures IsPathKey(k) ==> PathPrefix + k[|PathPrefix|..] == k
    ensures IsPathKey(k) ==> forall nm :: PathPrefix + nm == k ==> nm == k[|PathPrefix|..]
    ensures IsPathKey(k) && |attrs[k]| >= 1 ==>
      PathEntry(fs, meta, attrs, k[|PathPrefix|..]) == ChildShape(fs, meta, attrs[k][0], k[|PathPrefix|..])
  {
    forall nm ensures PathPrefix + nm == k ==> nm == k[|PathPrefix|..] {
      PathPrefixConcat(nm);
    }
    if IsPathKey(k) {
      assert k == k[..|PathPrefix|] + k[|PathPrefix|..];
    }
  }

  /** Children holding, under each name, the child its `camliPath:` entry makes are exactly the listing. */
  lemma EntriesComplete(fs: CamliFileSystem, meta: Meta, attrs: Attrs, ch: map<string, Node>)
    requires forall nm :: nm in ch <==> PathEntry(fs, meta, attrs, nm).Some?
    requires forall nm :: nm in ch ==> ShapeOf(ch[nm]) == PathEntry(fs, meta, attrs, nm).value
    ensures Shapes(ch) == PathEntries(fs, meta, attrs)
  {
    forall nm | nm in ch || nm in PathEntries(fs, meta, attrs)
      ensures nm in ch && nm in PathEntries(fs, meta, attrs) && Shapes(ch)[nm] == PathEntries(fs, meta, attrs)[nm]
    {
      PathNamesSpec(attrs, nm);
    }
  }

  /** The two failure modes of `roDirV.populate`: both leave the node unpopulated, only the second reports it. */
  lemma DirVPopulateFailures(fs: CamliFileSystem, permanode: BlobRef, client: Client)
    ensures client.describe(DirVDescribe(permanode)).Failed? ==>
      DirVPopulate(fs, permanode, client) == Populated(true, None, [DescribeCall(DirVDescribe(permanode))])
    ensures client.describe(DirVDescribe(permanode)).Answered? &&
            permanode.String() !in client.describe(DirVDescribe(permanode)).value ==>
      DirVPopulate(fs, permanode, client) == Populated(false, None, [DescribeCall(DirVDescribe(permanode))])
    ensures DirVPopulate(fs, permanode, client).entries.Some? ==> DirVPopulate(fs, permanode, client).ok
  {
  }

  /** Makes the node a shape describes, fresh and unpopulated. */
  method NewNode(fs: CamliFileSystem, s: Shape) returns (n: Node)
    ensures ShapeOf(n) == s && NodeFs(n) == fs
    ensures fresh(NodeObject(n)) && Unpopulated(n)
  {
    match s
    case DirVShape(permanode, name, xattrs) =>
      var d := new RoDirV(fs, permanode, name, xattrs);
      n := DirV(d);
    case FileLikeShape(permanode, name, symLink, target, xattrs) =>
      var f := new RoFileLikeDir(fs, permanode, name, symLink, target, xattrs);
      n := FileLike(f);
    case VersionShape(permanode, name, content, size, symLink, target, mtime, atime) =>
      var v := new RoFileVersion(fs, permanode, name, content, size, symLink, target, mtime, atime);
      n := Version(v);
  }

  class RoDirV {
    const fs: CamliFileSystem
    const permanode: BlobRef
    /** The entry name in the parent directory. */
    const name: string
    /** The permanode attributes the extended-attribute view was primed with at creation, if any. */
    const xattrs: Option<Attrs>
    /** The child nodes by entry name; None until populated. */
    var children: Option<map<string, Node>>

    constructor (fs: CamliFileSystem, permanode: BlobRef, name: string, xattrs: Option<Attrs>)
      ensures this.fs == fs && this.permanode == permanode && this.name == name && this.xattrs == xattrs
      ensures children.None?
    {
      this.fs := fs;
      this.permanode := permanode;
      this.name := name;
      this.xattrs := xattrs;
      children := None;
    }

    /** A read-only directory (owner read and execute), inode from its permanode. */
    function Attr(): (a: Fuse.Attr)
      ensures a.inode == fs.sum64(permanode)
      ensures a.mode == ModeDir | OwnerReadExec
      ensures a.mode & ModeDir != 0 && a.mode & ModeSymlink == 0
      ensures a.mode & PermBits == OwnerReadExec && a.mode & AnyWrite == 0
      ensures a.uid == fs.uid && a.gid == fs.gid && a.size == 0 && a.blocks == 0
    {
      Fuse.Attr(fs.sum64(permanode), ModeDir | OwnerReadExec, fs.uid, fs.gid, 0, 0, ZeroTime, ZeroTime, ZeroTime, ZeroTime)
    }

    /** The children as a map: an unpopulated node reads as empty, as a nil Go map does. */
    function Kids(): map<string, Node>
      reads this
    {
      if children.Some? then children.value else map[]
    }

    /** Whether `populate` would now report success. */
    function WouldSucceed(client: Client): bool
      reads this
    {
      children.Some? || DirVPopulate(fs, permanode, client).ok
    }

    /** The state change a call of `populate` makes. */
    twostate predicate Populates(client: Client, issued: seq<Request>)
      reads this
    {
      if old(children).Some? then children == old(children) && issued == []
      else
        var p := DirVPopulate(fs, permanode, client);
        && issued == p.issued
        && (children.None? <==> p.entries.None?)
        && (children.Some? ==>
              && Shapes(children.value) == p.entries.value
              && (forall nm :: nm in children.value ==> NodeFs(children.value[nm]) == fs)
              && (forall nm :: nm in children.value ==> fresh(NodeObject(children.value[nm]))))
    }

    /**
     * `populate`: does nothing once populated; otherwise describes the
     * permanode and makes one child per resolvable `camliPath:` entry.
     */
    method Populate(client: Client) returns (ok: bool, issued: seq<Request>)
      modifies this
      ensures ok == old(WouldSucceed(client))
      ensures Populates(client, issued)
      ensures old(children).None? && children.Some? ==>
        forall nm :: nm in children.value ==> Unpopulated(children.value[nm])
    {
      if children.Some? {
        return true, [];
      }
      var req := DirVDescribe(permanode);
      issued := [DescribeCall(req)];
      var res := client.describe(req);
      if res.Failed? {
        return true, issued;
      }
      var meta := res.value;
      if permanode.String() !in meta {
        return false, issued;
      }
      AddEntries(meta, PermAttrs(meta[permanode.String()]));
      ok := true;
    }

    /**
     * The attribute loop of `populate`: visits the attributes in any order and
     * adds the child each `camliPath:` entry makes. The loop has no early exit,
     * so the map is built locally and committed once at the end.
     */
    method AddEntries(meta: Meta, attrs: Attrs)
      modifies this
      ensures children.Some? && Shapes(children.value) == PathEntries(fs, meta, attrs)
      ensures forall nm :: nm in children.value ==> NodeFs(children.value[nm]) == fs
      ensures forall nm :: nm in children.value ==> fresh(NodeObject(children.value[nm])) && Unpopulated(children.value[nm])
    {
      var ch: map<string, Node> := map[];
      var todo := attrs.Keys;
      while todo != {}
        invariant todo <= attrs.Keys
        modifies {}
        invariant forall nm :: nm in ch <==> PathPrefix + nm !in todo && PathEntry(fs, meta, attrs, nm).Some?
        invariant forall nm :: nm in ch ==>
          && ShapeOf(ch[nm]) == PathEntry(fs, meta, attrs, nm).value
          && NodeFs(ch[nm]) == fs && fresh(NodeObject(ch[nm])) && Unpopulated(ch[nm])
        decreases todo
      {
        var k :| k in todo;
        todo := todo - {k};
        var v := attrs[k];
        PathKeyEntry(fs, meta, attrs, k);
        if !IsPathKey(k) || |v| < 1 {
          continue;
        }
        var nm := k[|PathPrefix|..];
        var shape := ChildShape(fs, meta, v[0], nm);
        if shape.None? {
          continue;
        }
        var node := NewNode(fs, shape.value);
        ch := ch[nm := node];
      }
      EntriesComplete(fs, meta, attrs, ch);
      children := Some(ch);
    }

    /** `ReadDir`: EIO when `populate` fails, else one entry per child. */
    method ReadDir(client: Client) returns (r: Result<seq<Dirent>>, issued: seq<Request>)
      modifies this
      ensures Populates(client, issued)
      ensures !old(WouldSucceed(client)) ==> r == Err(EIO)
      ensures old(WouldSucceed(client)) ==> r.Ok? && ListingOf(r.value, Kids(), fs.sum64)
    {
      var ok;
      ok, issued := Populate(client);
      if !ok {
        return Err(EIO), issued;
      }
      var ents := ListChildren(Kids(), fs.sum64);
      r := Ok(ents);
    }

    /** `Lookup`: EIO when `populate` fails, the child named `name`, or ENOENT. */
    method Lookup(name: string, client: Client) returns (r: Result<Node>, issued: seq<Request>)
      modifies this
      ensures Populates(client, issued)
      ensures !old(WouldSucceed(client)) ==> r == Err(EIO)
      ensures old(WouldSucceed(client)) && name in Kids() ==> r == Ok(Kids()[name])
      ensures old(WouldSucceed(client)) && name !in Kids() ==> r == Err(ENOENT)
    {
      var ok;
      ok, issued := Populate(client);
      if !ok {
        return Err(EIO), issued;
      }
      if name in Kids() {
        r := Ok(Kids()[name]);
      } else {
        r := Err(ENOENT);
      }
    }
  }

  // ---------------------------------------------------------------------------
  // roFileLikeDir: a file's versions, one per camliContent claim

  /** What processing one claim yields: a version under a rendered name, or the reason the loop stops. */
  datatype ClaimStep = Made(name: string, shape: Shape) | InvalidRef | DescribeFailed | NotDescribed

  /** The describe sent for a claim: its value's ref, depth 1, as of the claim's date. */
  function ClaimDescribe(fs: CamliFileSystem, cl: Claim): DescribeRequest {
    DescribeRequest([fs.parse(cl.value)], 1, cl.date)
  }

  /**
   * One claim of the history: a value that does not parse as a ref, a failed
   * describe, or an undescribed value stop the loop; otherwise a version of
   * the described blob, keyed by the rendered claim date, under the parent's
   * permanode.
   */
  function StepFor(fs: CamliFileSystem, client: Client, permanode: BlobRef, cl: Claim): (s: ClaimStep)
    ensures s.Made? ==> s.name == fs.dateString(cl.date) && s.shape.VersionShape? && s.shape.name == s.name
    ensures s.Made? ==> s.shape.permanode == permanode && !s.shape.symLink
  {
    if !fs.parse(cl.value).Valid() then InvalidRef
    else match client.describe(ClaimDescribe(fs, cl))
      case Failed => DescribeFailed
      case Answered(meta) =>
        if cl.value !in meta then NotDescribed
        else
          var db := meta[cl.value];
          var name := fs.dateString(cl.date);
          Made(name, VersionShape(permanode, name, db.blobRef, FileSize(db), false, "", ZeroTime, ZeroTime))
  }

  /**
   * Which claim gives which step, in the claim's own terms: a value that does
   * not parse stops with an error, a failed describe stops with success, an
   * undescribed value stops with an error, and otherwise the version's
   * content and size are those of the claim's described blob.
   */
  lemma StepForCases(fs: CamliFileSystem, client: Client, permanode: BlobRef, cl: Claim)
    ensures StepFor(fs, client, permanode, cl).InvalidRef? <==> !fs.parse(cl.value).Valid()
    ensures StepFor(fs, client, permanode, cl).DescribeFailed? <==> fs.parse(cl.value).Valid() && client.describe(ClaimDescribe(fs, cl)).Failed?
    ensures StepFor(fs, client, permanode, cl).NotDescribed? <==>
      && fs.parse(cl.value).Valid() && client.describe(ClaimDescribe(fs, cl)).Answered?
      && cl.value !in client.describe(ClaimDescribe(fs, cl)).value
    ensures StepFor(fs, client, permanode, cl).Made? ==>
      && client.describe(ClaimDescribe(fs, cl)).Answered? && cl.value in client.describe(ClaimDescribe(fs, cl)).value
      && StepFor(fs, client, permanode, cl).shape.content == client.describe(ClaimDescribe(fs, cl)).value[cl.value].blobRef
      && StepFor(fs, client, permanode, cl).shape.size == FileSize(client.describe(ClaimDescribe(fs, cl)).value[cl.value])
  {
  }

  /** A described blob's file size; a blob without a file part reads as size 0. */
  function FileSize(db: DescribedBlob): int64 {
    if db.file.Some? then db.file.value.size else 0
  }

  /** The steps of a claim history, one per claim, in order. */
  function Steps(fs: CamliFileSystem, client: Client, permanode: BlobRef, claims: seq<Claim>): (r: seq<ClaimStep>)
    ensures |r| == |claims|
    decreases |claims|
  {
    if claims == [] then []
    else Steps(fs, client, permanode, claims[..|claims| - 1]) + [StepFor(fs, client, permanode, claims[|claims| - 1])]
  }

  /** The number of leading steps that each make a version: the loop stops at the first other one. */
  function Leading(steps: seq<ClaimStep>): (k: nat)
    ensures k <= |steps|
    ensures forall j :: 0 <= j < k ==> steps[j].Made?
    ensures k < |steps| ==> !steps[k].Made?
    decreases |steps|
  {
    if steps == [] || !steps[0].Made? then 0 else 1 + Leading(steps[1..])
  }

  /** The versions map the given steps build, each later version overwriting an earlier one of the same name. */
  function VersionsOf(steps: seq<ClaimStep>): (r: map<string, Shape>)
    ensures steps != [] && steps[|steps| - 1].Made? ==> r[steps[|steps| - 1].name := steps[|steps| - 1].shape] == r
    decreases |steps|
  {
    if steps == [] then map[]
    else
      var m := VersionsOf(steps[..|steps| - 1]);
      var s := steps[|steps| - 1];
      if s.Made? then m[s.name := s.shape] else m
  }

  /** At most one version per step. */
  lemma {:induction false} VersionsAtMostOnePerStep(steps: seq<ClaimStep>)
    ensures |VersionsOf(steps)| <= |steps|
    decreases |steps|
  {
    if steps != [] {
      VersionsAtMostOnePerStep(steps[..|steps| - 1]);
    }
  }

  /** One describe per claim. */
  lemma {:induction false} ClaimDescribesLength(fs: CamliFileSystem, claims: seq<Claim>)
    ensures |ClaimDescribes(fs, claims)| == |claims|
    decreases |claims|
  {
    if claims != [] {
      ClaimDescribesLength(fs, claims[..|claims| - 1]);
    }
  }

  /** Every listed version is the version some step made under that name. */
  lemma {:induction false} VersionsFromSteps(steps: seq<ClaimStep>, name: string)
    requires name in VersionsOf(steps)
    ensures Made(name, VersionsOf(steps)[name]) in steps
    decreases |steps|
  {
    var init := steps[..|steps| - 1];
    var last := steps[|steps| - 1];
    if !(last.Made? && last.name == name) {
      VersionsFromSteps(init, name);
      assert steps == init + [last];
    }
  }

  /** The describes sent for the given claims, in order. */
  function ClaimDescribes(fs: CamliFileSystem, claims: seq<Claim>): (r: seq<Request>)
    decreases |claims|
  {
    if claims == [] then []
    else ClaimDescribes(fs, claims[..|claims| - 1]) + [DescribeCall(ClaimDescribe(fs, claims[|claims| - 1]))]
  }

  function FileLikeClaims(permanode: BlobRef): ClaimsRequest {
    ClaimsRequest(permanode, "camliContent")
  }

  /**
   * `roFileLikeDir.populate` on an unpopulated node. A failed claims query
   * reports failure and commits nothing. Otherwise the children map is
   * committed holding the versions of the claims processed before the loop
   * stopped; a stop at an invalid ref or an undescribed blob reports failure,
   * a stop at a failed describe reports success. One describe is sent per
   * processed claim, and one more for the claim the loop stops at unless its
   * value is not a ref.
   */
  function FileLikePopulate(fs: CamliFileSystem, permanode: BlobRef, client: Client): (r: Populated)
    ensures |r.issued| >= 1 && r.issued[0] == ClaimsCall(FileLikeClaims(permanode))
    ensures r.entries.None? <==> client.getClaims(FileLikeClaims(permanode)).Failed?
    ensures r.entries.None? ==> !r.ok && r.issued == [ClaimsCall(FileLikeClaims(permanode))]
    ensures r.entries.Some? ==>
      && |r.entries.value| <= |client.getClaims(FileLikeClaims(permanode)).value|
      && |r.issued| <= 1 + |client.getClaims(FileLikeClaims(permanode)).value|
  {
    var creq := FileLikeClaims(permanode);
    match client.getClaims(creq)
    case Failed => Populated(false, None, [ClaimsCall(creq)])
    case Answered(claims) =>
      var steps := Steps(fs, client, permanode, claims);
      var k := Leading(steps);
      VersionsAtMostOnePerStep(steps[..k]);
      ClaimDescribesLength(fs, claims[..k]);
      Populated(k == |claims| || steps[k].DescribeFailed?,
                Some(VersionsOf(steps[..k])),
                [ClaimsCall(creq)] + StopDescribes(fs, claims, steps, k))
  }

  /** The describes the claim loop sends when it stops after `k` claims. */
  function StopDescribes(fs: CamliFileSystem, claims: seq<Claim>, steps: seq<ClaimStep>, k: nat): seq<Request>
    requires k <= |claims| == |steps|
  {
    ClaimDescribes(fs, claims[..k]) +
      if k < |claims| && !steps[k].InvalidRef? then [DescribeCall(ClaimDescribe(fs, claims[k]))] else []
  }

  /** The index of the last step that makes a version named `name`, or -1. */
  function LastNamed(steps: seq<ClaimStep>, name: string): (j: int)
    ensures -1 <= j < |steps|
    ensures j >= 0 ==> steps[j].Made? && steps[j].name == name
    ensures forall j' :: j < j' < |steps| ==> !(steps[j'].Made? && steps[j'].name == name)
    decreases |steps|
  {
    if steps == [] then -1
    else if steps[|steps| - 1].Made? && steps[|steps| - 1].name == name then |steps| - 1
    else LastNamed(steps[..|steps| - 1], name)
  }

  /**
   * A version is listed under a name exactly when some step makes a version
   * of that name, and it is the version of the LAST such step.
   */
  lemma {:induction false} VersionsLastWins(steps: seq<ClaimStep>, name: string)
    ensures name in VersionsOf(steps) <==> LastNamed(steps, name) >= 0
    ensures name in VersionsOf(steps) ==> VersionsOf(steps)[name] == steps[LastNamed(steps, name)].shape
    decreases |steps|
  {
    if steps != [] {
      var init := steps[..|steps| - 1];
      VersionsLastWins(init, name);
      var j := LastNamed(init, name);
      assert j >= 0 ==> init[j] == steps[j];
    }
  }

  /**
   * Every version of a claim history is keyed by the rendered date of a
   * claim, is the version that claim's step made, and belongs to the file's
   * permanode; no later claim renders to the same name.
   */
  lemma VersionsOfClaims(fs: CamliFileSystem, client: Client, permanode: BlobRef, claims: seq<Claim>, name: string)
    requires name in VersionsOf(Steps(fs, client, permanode, claims))
    ensures var j := LastNamed(Steps(fs, client, permanode, claims), name);
      && 0 <= j < |claims| && fs.dateString(claims[j].date) == name
      && StepFor(fs, client, permanode, claims[j]) == Made(name, VersionsOf(Steps(fs, client, permanode, claims))[name])
      && VersionsOf(Steps(fs, client, permanode, claims))[name].permanode == permanode
  {
    var steps := Steps(fs, client, permanode, claims);
    VersionsLastWins(steps, name);
    var j := LastNamed(steps, name);
    StepsAt(fs, client, permanode, claims, j);
  }

  /**
   * The partial commit: when the claims query answers, the node is left
   * populated whatever happens in the loop, holding the versions made before
   * the stop.
   */
  lemma FileLikePopulateCommits(fs: CamliFileSystem, permanode: BlobRef, client: Client)
    requires client.getClaims(FileLikeClaims(permanode)).Answered?
    ensures FileLikePopulate(fs, permanode, client).entries ==
      var steps := Steps(fs, client, permanode, client.getClaims(FileLikeClaims(permanode)).value);
      Some(VersionsOf(steps[..Leading(steps)]))
  {
  }

  /**
   * The success report of `roFileLikeDir.populate`: success exactly when the
   * claims query answers and the loop either runs to the end or stops at a
   * failed describe.
   */
  lemma FileLikePopulateOk(fs: CamliFileSystem, permanode: BlobRef, client: Client)
    ensures FileLikePopulate(fs, permanode, client).ok <==>
      && client.getClaims(FileLikeClaims(permanode)).Answered?
      && var steps := Steps(fs, client, permanode, client.getClaims(FileLikeClaims(permanode)).value);
         Leading(steps) == |steps| || steps[Leading(steps)].DescribeFailed?
    ensures client.getClaims(FileLikeClaims(permanode)).Failed? ==>
      FileLikePopulate(fs, permanode, client).entries.None?
  {
  }

  /** The step at position `j` of a history is the step of its `j`-th claim. */
  lemma {:induction false} StepsAt(fs: CamliFileSystem, client: Client, permanode: BlobRef, claims: seq<Claim>, j: nat)
    requires j < |claims|
    ensures Steps(fs, client, permanode, claims)[j] == StepFor(fs, client, permanode, claims[j])
    decreases |claims|
  {
    if j < |claims| - 1 {
      StepsAt(fs, client, permanode, claims[..|claims| - 1], j);
    }
  }

  /** The step of claim `i`, by the branch the loop takes on it. */
  lemma ClaimOutcome(fs: CamliFileSystem, client: Client, permanode: BlobRef, claims: seq<Claim>, i: nat)
    requires i < |claims|
    ensures var cl := claims[i];
      var st := Steps(fs, client, permanode, claims)[i];
      var res := client.describe(ClaimDescribe(fs, cl));
      && (!fs.parse(cl.value).Valid() ==> st.InvalidRef?)
      && (fs.parse(cl.value).Valid() && res.Failed? ==> st.DescribeFailed?)
      && (fs.parse(cl.value).Valid() && res.Answered? && cl.value !in res.value ==> st.NotDescribed?)
      && (fs.parse(cl.value).Valid() && res.Answered? && cl.value in res.value ==>
            st == Made(fs.dateString(cl.date), VersionShape(permanode, fs.dateString(cl.date), res.value[cl.value].blobRef,
                                                           FileSize(res.value[cl.value]), false, "", ZeroTime, ZeroTime)))
  {
    StepsAt(fs, client, permanode, claims, i);
  }

  lemma ClaimDescribesSnoc(fs: CamliFileSystem, claims: seq<Claim>, i: nat)
    requires i < |claims|
    ensures ClaimDescribes(fs, claims[..i + 1]) == ClaimDescribes(fs, claims[..i]) + [DescribeCall(ClaimDescribe(fs, claims[i]))]
  {
    assert claims[..i + 1][..i] == claims[..i];
  }

  lemma VersionsOfSnoc(steps: seq<ClaimStep>, i: nat)
    requires i < |steps| && steps[i].Made?
    ensures VersionsOf(steps[..i + 1]) == VersionsOf(steps[..i])[steps[i].name := steps[i].shape]
  {
    assert steps[..i + 1][..i] == steps[..i];
  }

  lemma ShapesUpdate(ch: map<string, Node>, name: string, n: Node)
    ensures Shapes(ch[name := n]) == Shapes(ch)[name := ShapeOf(n)]
  {
  }

  class RoFileLikeDir {
    const fs: CamliFileSystem
    const permanode: BlobRef
    const name: string
    /** Whether the entry is a symlink, and its target. */
    const symLink: bool
    const target: string
    const xattrs: Option<Attrs>
    /** The versions by rendered claim date; None until populated. */
    var children: Option<map<string, Node>>

    constructor (fs: CamliFileSystem, permanode: BlobRef, name: string, symLink: bool, target: string, xattrs: Option<Attrs>)
      ensures this.fs == fs && this.permanode == permanode && this.name == name
      ensures this.symLink == symLink && this.target == target && this.xattrs == xattrs
      ensures children.None?
    {
      this.fs := fs;
      this.permanode := permanode;
      this.name := name;
      this.symLink := symLink;
      this.target := target;
      this.xattrs := xattrs;
      children := None;
    }

    /** A read-only directory (owner read and execute), inode from its permanode. */
    function Attr(): (a: Fuse.Attr)
      ensures a.inode == fs.sum64(permanode)
      ensures a.mode == ModeDir | OwnerReadExec
      ensures a.mode & ModeDir != 0 && a.mode & ModeSymlink == 0
      ensures a.mode & PermBits == OwnerReadExec && a.mode & AnyWrite == 0
      ensures a.uid == fs.uid && a.gid == fs.gid && a.size == 0 && a.blocks == 0
    {
      Fuse.Attr(fs.sum64(permanode), ModeDir | OwnerReadExec, fs.uid, fs.gid, 0, 0, ZeroTime, ZeroTime, ZeroTime, ZeroTime)
    }

    function Kids(): map<string, Node>
      reads this
    {
      if children.Some? then children.value else map[]
    }

    function WouldSucceed(client: Client): bool
      reads this
    {
      children.Some? || FileLikePopulate(fs, permanode, client).ok
    }

    twostate predicate Populates(client: Client, issued: seq<Request>)
      reads this
    {
      if old(children).Some? then children == old(children) && issued == []
      else
        var p := FileLikePopulate(fs, permanode, client);
        && issued == p.issued
        && (children.None? <==> p.entries.None?)
        && (children.Some? ==>
              && Shapes(children.value) == p.entries.value
              && (forall nm :: nm in children.value ==> NodeFs(children.value[nm]) == fs)
              && (forall nm :: nm in children.value ==> fresh(NodeObject(children.value[nm]))))
    }

    /**
     * `populate`: does nothing once populated; otherwise fetches the
     * `camliContent` claims and makes one version per claim, describing each
     * claim's value as of the claim's date.
     */
    method Populate(client: Client) returns (ok: bool, issued: seq<Request>)
      modifies this
      ensures ok == old(WouldSucceed(client))
      ensures Populates(client, issued)
    {
      if children.Some? {
        return true, [];
      }
      var creq := FileLikeClaims(permanode);
      issued := [ClaimsCall(creq)];
      var res := client.getClaims(creq);
      if res.Failed? {
        return false, issued;
      }
      var sent;
      children := Some(map[]);
      ok, sent := AddVersions(client, res.value);
      issued := issued + sent;
    }

    /**
     * The claim loop of `populate`, run with `children` already allocated:
     * each claim's version is committed as soon as it is made, so an early
     * return leaves those made before it in place.
     */
    method AddVersions(client: Client, claims: seq<Claim>) returns (ok: bool, sent: seq<Request>)
      requires children == Some(map[])
      modifies this
      ensures var steps := Steps(fs, client, permanode, claims);
        var k := Leading(steps);
        && ok == (k == |claims| || steps[k].DescribeFailed?)
        && sent == StopDescribes(fs, claims, steps, k)
        && children.Some? && Shapes(children.value) == VersionsOf(steps[..k])
      ensures children.Some? && forall nm :: nm in children.value ==>
        NodeFs(children.value[nm]) == fs && fresh(NodeObject(children.value[nm]))
    {
      ghost var steps := Steps(fs, client, permanode, claims);
      ghost var k := Leading(steps);
      var ch: map<string, Node> := map[];
      sent := [];
      var i := 0;
      while i < |claims|
        invariant 0 <= i <= k
        invariant children == Some(ch)
        invariant Shapes(ch) == VersionsOf(steps[..i])
        invariant sent == ClaimDescribes(fs, claims[..i])
        invariant forall nm :: nm in ch ==> NodeFs(ch[nm]) == fs && fresh(NodeObject(ch[nm]))
      {
        var cl := claims[i];
        ClaimOutcome(fs, client, permanode, claims, i);
        var pn := fs.parse(cl.value);
        if !pn.Valid() {
          assert steps[i].InvalidRef?;
          return false, sent;
        }
        var dreq := DescribeRequest([pn], 1, cl.date);
        ClaimDescribesSnoc(fs, claims, i);
        sent := sent + [DescribeCall(dreq)];
        var dres := client.describe(dreq);
        if dres.Failed? {
          assert steps[i].DescribeFailed?;
          return true, sent;
        }
        if cl.value !in dres.value {
          assert steps[i].NotDescribed?;
          return false, sent;
        }
        var db := dres.value[cl.value];
        var name := fs.dateString(cl.date);
        var v := new RoFileVersion(fs, permanode, name, db.blobRef, FileSize(db), false, "", ZeroTime, ZeroTime);
        assert steps[i] == Made(name, ShapeOf(Version(v)));
        VersionsOfSnoc(steps, i);
        ShapesUpdate(ch, name, Version(v));
        ch := ch[name := Version(v)];
        children := Some(ch);
        i := i + 1;
      }
      assert claims[..i] == claims;
      ok := true;
    }

    /** `ReadDir`: EIO when `populate` fails, else one entry per version. */
    method ReadDir(client: Client) returns (r: Result<seq<Dirent>>, issued: seq<Request>)
      modifies this
      ensures Populates(client, issued)
      ensures !old(WouldSucceed(client)) ==> r == Err(EIO)
      ensures old(WouldSucceed(client)) ==> r.Ok? && ListingOf(r.value, Kids(), fs.sum64)
    {
      var ok;
      ok, issued := Populate(client);
      if !ok {
        return Err(EIO), issued;
      }
      var ents := ListChildren(Kids(), fs.sum64);
      r := Ok(ents);
    }

    /** `Lookup`: EIO when `populate` fails, the version named `name`, or ENOENT. */
    method Lookup(name: string, client: Client) returns (r: Result<Node>, issued: seq<Request>)
      modifies this
      ensures Populates(client, issued)
      ensures !old(WouldSucceed(client)) ==> r == Err(EIO)
      ensures old(WouldSucceed(client)) && name in Kids() ==> r == Ok(Kids()[name])
      ensures old(WouldSucceed(client)) && name !in Kids() ==> r == Err(ENOENT)
    {
      var ok;
      ok, issued := Populate(client);
      if !ok {
        return Err(EIO), issued;
      }
      if name in Kids() {
        r := Ok(Kids()[name]);
      } else {
        r := Err(ENOENT);
      }
    }
  }

  // ---------------------------------------------------------------------------
  // roFileVersion: one version of a file

  /** The outcome of `Open`: a read handle on a content blob with the response flags, or an error. */
  datatype OpenResult = Opened(content: BlobRef, flags: bv32) | OpenFailed(errno: Errno)

  class RoFileVersion {
    const fs: CamliFileSystem
    /** The permanode of the versioned file (the parent's). */
    const permanode: BlobRef
    /** The rendered claim date. */
    const name: string
    const symLink: bool
    const target: string
    /** The content blob and its size, fixed at construction. */
    const content: BlobRef
    const size: int64
    /** Modification and access times; the zero time means "unknown". */
    const mtime: Time
    const atime: Time

    constructor (fs: CamliFileSystem, permanode: BlobRef, name: string, content: BlobRef, size: int64,
                 symLink: bool, target: string, mtime: Time, atime: Time)
      ensures this.fs == fs && this.permanode == permanode && this.name == name
      ensures this.content == content && this.size == size
      ensures this.symLink == symLink && this.target == target && this.mtime == mtime && this.atime == atime
    {
      this.fs := fs;
      this.permanode := permanode;
      this.name := name;
      this.content := content;
      this.size := size;
      this.symLink := symLink;
      this.target := target;
      this.mtime := mtime;
      this.atime := atime;
    }

    /** `modTime`: the modification time, or the process start time when unknown. */
    function ModTime(): (t: Time)
      ensures !IsZero(mtime) ==> t == mtime
      ensures IsZero(mtime) ==> t == fs.serverStart
      ensures !IsZero(fs.serverStart) ==> !IsZero(t)
    {
      if !IsZero(mtime) then mtime else fs.serverStart
    }

    /** `accessTime`: the access time, or the modification time when unknown. */
    function AccessTime(): (t: Time)
      ensures !IsZero(atime) ==> t == atime
      ensures IsZero(atime) ==> t == ModTime()
      ensures !IsZero(fs.serverStart) ==> !IsZero(t)
    {
      if !IsZero(atime) then atime else ModTime()
    }

    /**
     * `Attr`: owner read only, plus the symlink bit exactly for a symlink;
     * the size as Go's unsigned conversion of the signed size; whole 512-byte
     * blocks plus one for a positive size, none otherwise.
     */
    function Attr(): (a: Fuse.Attr)
      ensures a.inode == fs.sum64(permanode)
      ensures a.mode == if symLink then OwnerRead | ModeSymlink else OwnerRead
      ensures a.mode & PermBits == OwnerRead && a.mode & AnyWrite == 0 && a.mode & ModeDir == 0
      ensures (a.mode & ModeSymlink != 0) <==> symLink
      ensures a.size == Int64ToUint64(size)
      ensures size <= 0 ==> a.blocks == 0
      ensures size > 0 ==> a.blocks == size / 512 + 1
      ensures a.mtime == ModTime() && a.atime == AccessTime()
      ensures a.ctime == fs.serverStart && a.crtime == fs.serverStart
      ensures a.uid == fs.uid && a.gid == fs.gid
    {
      var mode := if symLink then OwnerRead | ModeSymlink else OwnerRead;
      var blocks: uint64 := if size > 0 then size / 512 + 1 else 0;
      Fuse.Attr(fs.sum64(permanode), mode, fs.uid, fs.gid, Int64ToUint64(size), blocks,
                ModTime(), AccessTime(), fs.serverStart, fs.serverStart)
    }

    /**
     * `Open`'s flag logic: write flags are refused with EPERM; a content
     * reader that cannot be made is EIO; otherwise a handle on the content,
     * with the response flags' direct-I/O bit cleared and every other bit kept.
     */
    function Open(reqFlags: bv32, resFlags: bv32, readerOpens: bool): (r: OpenResult)
      ensures fs.isWriteFlags(reqFlags) ==> r == OpenFailed(EPERM)
      ensures !fs.isWriteFlags(reqFlags) && !readerOpens ==> r == OpenFailed(EIO)
      ensures !fs.isWriteFlags(reqFlags) && readerOpens ==>
        && r.Opened? && r.content == content
        && r.flags & OpenDirectIO == 0
        && r.flags | OpenDirectIO == resFlags | OpenDirectIO
    {
      if fs.isWriteFlags(reqFlags) then OpenFailed(EPERM)
      else if !readerOpens then OpenFailed(EIO)
      else Opened(content, resFlags & !OpenDirectIO)
    }

    /** `Setxattr`: always refused. */
    function Setxattr(attrName: string, value: seq<bv8>): (e: Option<Errno>)
      ensures e == Some(EPERM)
    {
      Some(EPERM)
    }

    /** `Removexattr`: always refused. */
    function Removexattr(attrName: string): (e: Option<Errno>)
      ensures e == Some(EPERM)
    {
      Some(EPERM)
    }

    /** `Fsync`: always succeeds; the content never changes. */
    function Fsync(): (e: Option<Errno>)
      ensures e.None?
    {
      None
    }
  }

  /** A positive size's blocks cover it: between one and 512 bytes of slack. */
  lemma BlocksCoverSize(v: RoFileVersion)
    requires v.size > 0
    ensures v.Attr().blocks * 512 > v.size
    ensures v.Attr().blocks * 512 <= v.size + 512
  {
  }
}
