/**
 * The `versions` directory (pkg/fs/versions.go): one entry per root
 * permanode (attribute `camliRoot`) and per importer root permanode
 * (attribute `camliImportRoot`, listed as `importer-<name>`), refreshed from
 * the graph service at most once a minute. Each entry opens as a versioned
 * directory of rover.go.
 */
module Versions {
  import opened Base
  import opened Graph
  import opened Fuse
  import opened CamliFs
  import Rover

  /** `versionsRefreshTime`: how long a successful refresh is trusted. */
  const RefreshTime: int := Minute

  const RootAttr := "camliRoot"
  const ImportRootAttr := "camliImportRoot"
  const ImporterPrefix := "importer-"

  /** The two attribute searches of a refresh, each for at most 100 permanodes. */
  const RootSearch := WithAttrRequest(100, RootAttr)
  const ImportSearch := WithAttrRequest(100, ImportRootAttr)

  // ---------------------------------------------------------------------------
  // Entry names

  /** The character `strings.Replace` leaves for `c` when both `:` and `/` become `-`. */
  function Sanitized(c: char): char {
    if c == ':' || c == '/' then '-' else c
  }

  /** `strings.Replace(s, from, to, -1)` for a one-character pattern: every occurrence replaced. */
  function ReplaceChar(s: string, from: char, to: char): (r: string)
    ensures |r| == |s|
    ensures forall i :: 0 <= i < |s| ==> r[i] == if s[i] == from then to else s[i]
  {
    if s == [] then [] else [if s[0] == from then to else s[0]] + ReplaceChar(s[1..], from, to)
  }

  /**
   * The entry name of an importer root named `name`: the prefix
   * `importer-`, then `name` with every `:` and every `/` turned into `-`.
   */
  function ImporterName(name: string): (r: string)
    ensures |r| == |ImporterPrefix| + |name| && r[..|ImporterPrefix|] == ImporterPrefix
    ensures forall i :: 0 <= i < |name| ==> r[|ImporterPrefix| + i] == Sanitized(name[i])
  {
    ImporterPrefix + ReplaceChar(ReplaceChar(name, ':', '-'), '/', '-')
  }

  /** No importer entry name contains a `:` or a `/`, so it is one path component. */
  lemma ImporterNameIsComponent(name: string)
    ensures forall i :: 0 <= i < |ImporterName(name)| ==> ImporterName(name)[i] != ':' && ImporterName(name)[i] != '/'
  {
    var r := ImporterName(name);
    forall i | 0 <= i < |r| ensures r[i] != ':' && r[i] != '/' {
      if i < |ImporterPrefix| {
        assert r[i] == r[..|ImporterPrefix|][i];
      } else {
        assert r[|ImporterPrefix| + (i - |ImporterPrefix|)] == Sanitized(name[i - |ImporterPrefix|]);
      }
    }
  }

  /** Importer names that differ only in `:`, `/` and `-` share one entry. */
  lemma ImporterNamesCollide(a: string, b: string)
    requires |a| == |b| && forall i :: 0 <= i < |a| ==> Sanitized(a[i]) == Sanitized(b[i])
    ensures ImporterName(a) == ImporterName(b)
  {
    var ra, rb := ImporterName(a), ImporterName(b);
    forall i | 0 <= i < |ra| ensures ra[i] == rb[i] {
      if i < |ImporterPrefix| {
        assert ra[i] == ra[..|ImporterPrefix|][i] && rb[i] == rb[..|ImporterPrefix|][i];
      } else {
        var k := i - |ImporterPrefix|;
        assert ra[|ImporterPrefix| + k] == Sanitized(a[k]) && rb[|ImporterPrefix| + k] == Sanitized(b[k]);
      }
    }
  }

  /** For instance, `a:b`, `a/b` and `a-b` all list as `importer-a-b`. */
  lemma ImporterNamesCollideExample()
    ensures ImporterName("a:b") == ImporterName("a/b") == ImporterName("a-b") == "importer-a-b"
  {
  }

  /**
   * The entry name a described root (or, with `importer`, importer root)
   * permanode gives: its `camliRoot` (`camliImportRoot`) attribute, the
   * latter as an importer name; "" when the permanode is not described, has
   * no permanode part, or the attribute is empty.
   */
  function EntryName(meta: Meta, pn: BlobRef, importer: bool): (r: string)
    ensures r != "" ==> pn.String() in meta && meta[pn.String()].permanode.Some?
  {
    if pn.String() !in meta || meta[pn.String()].permanode.None? then ""
    else
      var name := AttrGet(meta[pn.String()].permanode.value, if importer then ImportRootAttr else RootAttr);
      if name == "" then "" else if importer then ImporterName(name) else name
  }

  /** What an entry name is made of, and when there is none. */
  lemma EntryNameSpec(meta: Meta, pn: BlobRef, importer: bool)
    ensures EntryName(meta, pn, importer) != "" <==>
      && pn.String() in meta && meta[pn.String()].permanode.Some?
      && AttrGet(meta[pn.String()].permanode.value, if importer then ImportRootAttr else RootAttr) != ""
    ensures importer && EntryName(meta, pn, importer) != "" ==>
      EntryName(meta, pn, importer) == ImporterName(AttrGet(meta[pn.String()].permanode.value, ImportRootAttr))
    ensures !importer && EntryName(meta, pn, importer) != "" ==> EntryName(meta, pn, importer) == AttrGet(meta[pn.String()].permanode.value, RootAttr)
  {
  }

  /** The entries a loop over `pns` writes into `m0`, in order, a later permanode overwriting an earlier one of the same name. */
  function Named(m0: map<string, BlobRef>, meta: Meta, pns: seq<BlobRef>, importer: bool): (r: map<string, BlobRef>)
    ensures m0.Keys <= r.Keys
    decreases |pns|
  {
    if pns == [] then m0
    else
      var m := Named(m0, meta, pns[..|pns| - 1], importer);
      var pn := pns[|pns| - 1];
      var name := EntryName(meta, pn, importer);
      if name != "" then m[name := pn] else m
  }

  /** Every entry a naming loop adds is bound to one of the permanodes it visited. */
  lemma {:induction false} NamedFromPermanodes(m0: map<string, BlobRef>, meta: Meta, pns: seq<BlobRef>, importer: bool, k: string)
    requires k in Named(m0, meta, pns, importer) && k !in m0
    ensures Named(m0, meta, pns, importer)[k] in pns
    decreases |pns|
  {
    var init := pns[..|pns| - 1];
    var last := pns[|pns| - 1];
    if !(EntryName(meta, last, importer) == k && k != "") {
      NamedFromPermanodes(m0, meta, init, importer, k);
      assert pns == init + [last];
    }
  }

  /** The entry name each permanode of `pns` gives, in order. */
  function Names(meta: Meta, pns: seq<BlobRef>, importer: bool): (r: seq<string>)
    ensures |r| == |pns| && forall i :: 0 <= i < |pns| ==> r[i] == EntryName(meta, pns[i], importer)
  {
    seq(|pns|, i requires 0 <= i < |pns| => EntryName(meta, pns[i], importer))
  }

  /** The index of the last occurrence of the entry name `name` in `names`, or -1; "" is never an entry name. */
  function LastIndex(names: seq<string>, name: string): (j: int)
    ensures -1 <= j < |names|
    ensures j >= 0 ==> name != "" && names[j] == name
    ensures name != "" ==> forall j' :: j < j' < |names| ==> names[j'] != name
    decreases |names|
  {
    if names == [] || name == "" then -1
    else if names[|names| - 1] == name then |names| - 1
    else LastIndex(names[..|names| - 1], name)
  }

  /** One more step of the loop over `pns`. */
  lemma NamedSnoc(m0: map<string, BlobRef>, meta: Meta, pns: seq<BlobRef>, importer: bool, i: nat)
    requires i < |pns|
    ensures Named(m0, meta, pns[..i + 1], importer) ==
      if EntryName(meta, pns[i], importer) != "" then Named(m0, meta, pns[..i], importer)[EntryName(meta, pns[i], importer) := pns[i]]
      else Named(m0, meta, pns[..i], importer)
  {
    assert pns[..i + 1][..i] == pns[..i];
  }

  /** The index of the last permanode of `pns` that names the entry `name`, or -1. */
  function LastNaming(meta: Meta, pns: seq<BlobRef>, importer: bool, name: string): (j: int)
    ensures -1 <= j < |pns|
    ensures j >= 0 ==> name != "" && EntryName(meta, pns[j], importer) == name
    ensures name != "" ==> forall j' :: j < j' < |pns| ==> EntryName(meta, pns[j'], importer) != name
  {
    LastIndex(Names(meta, pns, importer), name)
  }

  /**
   * After the loop, an entry is present exactly when it was before or some
   * permanode names it, and it maps to the LAST permanode that names it.
   */
  lemma {:induction false} NamedLastWins(m0: map<string, BlobRef>, meta: Meta, pns: seq<BlobRef>, importer: bool, name: string)
    ensures name in Named(m0, meta, pns, importer) <==> name in m0 || LastNaming(meta, pns, importer, name) >= 0
    ensures LastNaming(meta, pns, importer, name) >= 0 ==>
      Named(m0, meta, pns, importer)[name] == pns[LastNaming(meta, pns, importer, name)]
    ensures name in m0 && LastNaming(meta, pns, importer, name) < 0 ==> Named(m0, meta, pns, importer)[name] == m0[name]
    decreases |pns|
  {
    if pns != [] {
      var init := pns[..|pns| - 1];
      NamedLastWins(m0, meta, init, importer, name);
      assert Names(meta, init, importer) == Names(meta, pns, importer)[..|pns| - 1];
      var j := LastNaming(meta, init, importer, name);
      assert j >= 0 ==> init[j] == pns[j];
    }
  }

  // ---------------------------------------------------------------------------
  // The refresh, on values

  /** What `condRefresh` reads and writes: the time of the last full refresh, the entries, and the memoised child nodes (None: a nil map). */
  datatype VersionsState = VersionsState(lastQuery: Time, m: map<string, BlobRef>, children: Option<map<string, Rover.RoDirV>>)

  /** The invariant every state of the directory keeps: no entries while the child map is still nil. */
  ghost predicate StateValid(s: VersionsState) {
    s.children.None? ==> s.m == map[]
  }

  /** The outcome of one call of `condRefresh`: the error returned, the new state, and the requests sent. */
  datatype Refreshed = Refreshed(err: Option<Errno>, state: VersionsState, issued: seq<Request>)

  /** The describe of a refresh: every permanode both searches found, at depth 1, as of now. */
  function RootsDescribe(refs: seq<BlobRef>): DescribeRequest {
    DescribeRequest(refs, 1, ZeroTime)
  }

  const Searches := [WithAttrCall(RootSearch), WithAttrCall(ImportSearch)]

  /** The state after a reset: no entries, the child map allocated (and kept), the last query time kept. */
  function Cleared(s: VersionsState): VersionsState {
    VersionsState(s.lastQuery, map[], Some(if s.children.Some? then s.children.value else map[]))
  }

  /** The children kept by the eviction: those whose name some root permanode currently gives. */
  function Kept(kids: map<string, Rover.RoDirV>, roots: map<string, BlobRef>): map<string, Rover.RoDirV> {
    map k | k in kids && k in roots :: kids[k]
  }

  /**
   * `condRefresh` at time `now`: nothing within a minute of the last full
   * refresh; otherwise the two searches (EIO if either fails, nothing
   * changed), a reset of the entries, and unless both searches came back
   * empty a describe of all found permanodes (EIO if it fails). On success
   * the entries are the named roots overwritten by the named importers, the
   * children of names that are no longer roots are dropped, and the time is
   * recorded.
   */
  function Refresh(s: VersionsState, now: Time, client: Client): (r: Refreshed)
    ensures r.err.Some? ==> r.err == Some(EIO)
    ensures r.issued == [] || r.issued == Searches || (|r.issued| == 3 && r.issued[..2] == Searches && r.issued[2].DescribeCall?)
    ensures r.issued == [] <==> now - RefreshTime < s.lastQuery
    ensures r.state.lastQuery == s.lastQuery || (r.state.lastQuery == now && r.err.None?)
  {
    if s.lastQuery > now - RefreshTime then Refreshed(None, s, [])
    else
      var rootRes := client.getPermanodesWithAttr(RootSearch);
      var impRes := client.getPermanodesWithAttr(ImportSearch);
      if rootRes.Failed? || impRes.Failed? then Refreshed(Some(EIO), s, Searches)
      else
        var roots, imps := rootRes.value, impRes.value;
        if roots + imps == [] then Refreshed(None, Cleared(s), Searches)
        else
          var issued := Searches + [DescribeCall(RootsDescribe(roots + imps))];
          match client.describe(RootsDescribe(roots + imps))
          case Failed => Refreshed(Some(EIO), Cleared(s), issued)
          case Answered(meta) =>
            var rootMap := Named(map[], meta, roots, false);
            Refreshed(None, VersionsState(now, Named(rootMap, meta, imps, true),
                                          Some(Kept(Cleared(s).children.value, rootMap))), issued)
  }

  /** Whether a refresh at `now` reaches the describe and it answers. */
  predicate FullRefresh(s: VersionsState, now: Time, client: Client) {
    && s.lastQuery <= now - RefreshTime
    && client.getPermanodesWithAttr(RootSearch).Answered?
    && client.getPermanodesWithAttr(ImportSearch).Answered?
    && client.getPermanodesWithAttr(RootSearch).value + client.getPermanodesWithAttr(ImportSearch).value != []
    && client.describe(RootsDescribe(client.getPermanodesWithAttr(RootSearch).value
                                     + client.getPermanodesWithAttr(ImportSearch).value)).Answered?
  }

  /** Within a minute of the last full refresh nothing is sent and nothing changes. */
  lemma RefreshWithinWindow(s: VersionsState, now: Time, client: Client)
    requires now - RefreshTime < s.lastQuery
    ensures Refresh(s, now, client) == Refreshed(None, s, [])
  {
  }

  /** A failed search is EIO and leaves the state as it was; both searches are sent either way. */
  lemma RefreshSearchFails(s: VersionsState, now: Time, client: Client)
    requires s.lastQuery <= now - RefreshTime
    requires client.getPermanodesWithAttr(RootSearch).Failed? || client.getPermanodesWithAttr(ImportSearch).Failed?
    ensures Refresh(s, now, client) == Refreshed(Some(EIO), s, Searches)
  {
  }

  /**
   * Once the searches answer, the entries are reset: when both are empty, or
   * when the describe fails, the directory is left empty and the time is
   * not recorded, so the next call queries again.
   */
  lemma RefreshResets(s: VersionsState, now: Time, client: Client)
    requires s.lastQuery <= now - RefreshTime
    requires client.getPermanodesWithAttr(RootSearch).Answered? && client.getPermanodesWithAttr(ImportSearch).Answered?
    requires !FullRefresh(s, now, client)
    ensures Refresh(s, now, client).state == Cleared(s)
    ensures Refresh(s, now, client).state.m == map[] && Refresh(s, now, client).state.lastQuery == s.lastQuery
    ensures Refresh(s, now, client).err.None? <==>
      client.getPermanodesWithAttr(RootSearch).value + client.getPermanodesWithAttr(ImportSearch).value == []
  {
  }

  /** The time is recorded exactly on a full refresh, and a full refresh reports no error. */
  lemma RefreshRecordsTime(s: VersionsState, now: Time, client: Client)
    ensures FullRefresh(s, now, client) ==> Refresh(s, now, client).state.lastQuery == now && Refresh(s, now, client).err.None?
    ensures !FullRefresh(s, now, client) ==> Refresh(s, now, client).state.lastQuery == s.lastQuery
  {
  }

  /**
   * The entries after a full refresh: a name is listed exactly when a root
   * or an importer root names it; an importer entry wins over a root of the
   * same name, and either maps to the last permanode that names it.
   */
  lemma RefreshEntries(s: VersionsState, now: Time, client: Client, name: string)
    requires FullRefresh(s, now, client)
    ensures var roots := client.getPermanodesWithAttr(RootSearch).value;
      var imps := client.getPermanodesWithAttr(ImportSearch).value;
      var meta := client.describe(RootsDescribe(roots + imps)).value;
      var m := Refresh(s, now, client).state.m;
      && (name in m <==> LastNaming(meta, roots, false, name) >= 0 || LastNaming(meta, imps, true, name) >= 0)
      && (LastNaming(meta, imps, true, name) >= 0 ==> m[name] == imps[LastNaming(meta, imps, true, name)])
      && (LastNaming(meta, imps, true, name) < 0 && LastNaming(meta, roots, false, name) >= 0 ==>
            m[name] == roots[LastNaming(meta, roots, false, name)])
  {
    var roots := client.getPermanodesWithAttr(RootSearch).value;
    var imps := client.getPermanodesWithAttr(ImportSearch).value;
    var meta := client.describe(RootsDescribe(roots + imps)).value;
    NamedLastWins(map[], meta, roots, false, name);
    NamedLastWins(Named(map[], meta, roots, false), meta, imps, true, name);
  }

  /**
   * The children after a full refresh: only names some root permanode
   * currently gives survive, and each survivor is the node memoised before.
   */
  lemma RefreshEvicts(s: VersionsState, now: Time, client: Client, name: string)
    requires FullRefresh(s, now, client)
    ensures var roots := client.getPermanodesWithAttr(RootSearch).value;
      var meta := client.describe(RootsDescribe(roots + client.getPermanodesWithAttr(ImportSearch).value)).value;
      var kids := Refresh(s, now, client).state.children;
      && kids.Some?
      && (name in kids.value <==> s.children.Some? && name in s.children.value && LastNaming(meta, roots, false, name) >= 0)
      && (name in kids.value ==> kids.value[name] == s.children.value[name])
  {
    var roots := client.getPermanodesWithAttr(RootSearch).value;
    var meta := client.describe(RootsDescribe(roots + client.getPermanodesWithAttr(ImportSearch).value)).value;
    NamedLastWins(map[], meta, roots, false, name);
  }

  /** Every refresh outcome keeps the state invariant. */
  lemma RefreshKeepsValid(s: VersionsState, now: Time, client: Client)
    requires StateValid(s)
    ensures StateValid(Refresh(s, now, client).state)
  {
  }

  /** Two calls within a minute of a full refresh: the second sends nothing and changes nothing, whatever the service would answer. */
  lemma RefreshOncePerMinute(s: VersionsState, now: Time, client: Client, later: Time, client': Client)
    requires FullRefresh(s, now, client)
    requires now <= later < now + RefreshTime
    ensures Refresh(Refresh(s, now, client).state, later, client') ==
      Refreshed(None, Refresh(s, now, client).state, [])
  {
  }

  // ---------------------------------------------------------------------------
  // The directory node

  /** `ReadDir`'s listing: one entry per name, inode 0. */
  ghost predicate NameListing(ents: seq<Dirent>, m: map<string, BlobRef>) {
    && |ents| == |m.Keys|
    && (forall i, j :: 0 <= i < j < |ents| ==> ents[i].name != ents[j].name)
    && (forall i :: 0 <= i < |ents| ==> ents[i].name in m && ents[i].inode == 0)
    && (forall nm :: nm in m ==> exists i :: 0 <= i < |ents| && ents[i].name == nm)
  }

  /** The loop of `ReadDir`: visits the entry names in any order. */
  method ListNames(m: map<string, BlobRef>) returns (ents: seq<Dirent>)
    ensures NameListing(ents, m)
  {
    ents := [];
    var todo := m.Keys;
    while todo != {}
      invariant todo <= m.Keys
      invariant |ents| + |todo| == |m.Keys|
      invariant forall i, j :: 0 <= i < j < |ents| ==> ents[i].name != ents[j].name
      invariant forall i :: 0 <= i < |ents| ==> ents[i].name in m && ents[i].name !in todo && ents[i].inode == 0
      invariant forall nm :: nm in m && nm !in todo ==> exists i :: 0 <= i < |ents| && ents[i].name == nm
      decreases todo
    {
      var k :| k in todo;
      ghost var prev := ents;
      ents := ents + [Dirent(k, 0)];
      todo := todo - {k};
      forall nm | nm in m && nm !in todo
        ensures exists i :: 0 <= i < |ents| && ents[i].name == nm
      {
        if nm == k {
          assert ents[|prev|].name == nm;
        } else {
          var i :| 0 <= i < |prev| && prev[i].name == nm;
          assert ents[i].name == nm;
        }
      }
    }
  }

  class VersionsDir {
    const fs: CamliFileSystem
    /** When the last full refresh finished; the zero time before the first. */
    var lastQuery: Time
    /** Entry name to root permanode. */
    var m: map<string, BlobRef>
    /** The memoised child nodes by entry name; None until the first refresh that gets past the searches. */
    var children: Option<map<string, Rover.RoDirV>>

    constructor (fs: CamliFileSystem)
      ensures this.fs == fs && lastQuery == ZeroTime && m == map[] && children.None?
      ensures Valid()
    {
      this.fs := fs;
      lastQuery := ZeroTime;
      m := map[];
      children := None;
    }

    ghost predicate Valid()
      reads this
    {
      StateValid(State())
    }

    function State(): VersionsState
      reads this
    {
      VersionsState(lastQuery, m, children)
    }

    /** `isRO`: the directory is always read-only. */
    predicate IsRO()
      ensures IsRO()
    {
      true
    }

    /** `dirMode`: owner read and execute when read-only, else owner read, write and execute. */
    function DirMode(): (mode: bv32)
      ensures IsRO() ==> mode == OwnerReadExec
      ensures !IsRO() ==> mode == OwnerAll
    {
      if IsRO() then OwnerReadExec else OwnerAll
    }

    /** `Attr`: a read-only directory owned by the process's user and group; inode, size and times left zero. */
    function Attr(): (a: Fuse.Attr)
      ensures a.mode == ModeDir | OwnerReadExec
      ensures a.mode & ModeDir != 0 && a.mode & ModeSymlink == 0
      ensures a.mode & PermBits == OwnerReadExec && a.mode & AnyWrite == 0
      ensures a.uid == fs.uid && a.gid == fs.gid
      ensures a.inode == 0 && a.size == 0 && a.blocks == 0 && IsZero(a.mtime) && IsZero(a.atime)
    {
      Fuse.Attr(0, ModeDir | DirMode(), fs.uid, fs.gid, 0, 0, ZeroTime, ZeroTime, ZeroTime, ZeroTime)
    }

    /**
     * `condRefresh` at time `now`, with the service answering as `client`;
     * both searches are sent before either answer is looked at.
     */
    method CondRefresh(now: Time, client: Client) returns (err: Option<Errno>, issued: seq<Request>)
      modifies this
      ensures Refresh(old(State()), now, client) == Refreshed(err, State(), issued)
    {
      if lastQuery > now - RefreshTime {
        return None, [];
      }
      issued := Searches;
      var rootRes := client.getPermanodesWithAttr(RootSearch);
      var impRes := client.getPermanodesWithAttr(ImportSearch);
      if rootRes.Failed? || impRes.Failed? {
        return Some(EIO), issued;
      }
      m := map[];
      if children.None? {
        children := Some(map[]);
      }
      var refs := CollectRefs(rootRes.value, impRes.value);
      if |refs| == 0 {
        return None, issued;
      }
      var dreq := RootsDescribe(refs);
      issued := issued + [DescribeCall(dreq)];
      var dres := client.describe(dreq);
      if dres.Failed? {
        return Some(EIO), issued;
      }
      var currentRoots := AddRoots(dres.value, rootRes.value);
      Evict(currentRoots);
      AddImporters(dres.value, impRes.value);
      lastQuery := now;
      err := None;
    }

    /** The roots loop: names each described root permanode; returns the set of names written. */
    method AddRoots(meta: Meta, roots: seq<BlobRef>) returns (currentRoots: set<string>)
      requires m == map[]
      modifies this
      ensures m == Named(map[], meta, roots, false) && currentRoots == m.Keys
      ensures lastQuery == old(lastQuery) && children == old(children)
    {
      currentRoots := {};
      var i := 0;
      while i < |roots|
        invariant 0 <= i <= |roots|
        invariant m == Named(map[], meta, roots[..i], false) && currentRoots == m.Keys
        invariant lastQuery == old(lastQuery) && children == old(children)
      {
        NamedSnoc(map[], meta, roots, false, i);
        var name := EntryName(meta, roots[i], false);
        if name != "" {
          currentRoots := currentRoots + {name};
          m := m[name := roots[i]];
        }
        i := i + 1;
      }
      assert roots[..i] == roots;
    }

    /** The eviction loop: drops each child whose name is not a current root, in any order. */
    method Evict(currentRoots: set<string>)
      requires children.Some?
      modifies this
      ensures children == Some(map k | k in old(children.value) && k in currentRoots :: old(children.value)[k])
      ensures lastQuery == old(lastQuery) && m == old(m)
    {
      var kids := children.value;
      var todo := kids.Keys;
      while todo != {}
        invariant todo <= kids.Keys
        invariant children.Some?
        invariant forall k :: k in children.value <==> k in kids && (k in todo || k in currentRoots)
        invariant forall k :: k in children.value ==> children.value[k] == kids[k]
        invariant lastQuery == old(lastQuery) && m == old(m)
        decreases todo
      {
        var k :| k in todo;
        todo := todo - {k};
        if k !in currentRoots {
          children := Some(children.value - {k});
        }
      }
      assert children.value == map k | k in kids && k in currentRoots :: kids[k];
    }

    /** The importers loop: adds each described importer root under its importer name. */
    method AddImporters(meta: Meta, imps: seq<BlobRef>)
      modifies this
      ensures m == Named(old(m), meta, imps, true)
      ensures lastQuery == old(lastQuery) && children == old(children)
    {
      var i := 0;
      while i < |imps|
        invariant 0 <= i <= |imps|
        invariant m == Named(old(m), meta, imps[..i], true)
        invariant lastQuery == old(lastQuery) && children == old(children)
      {
        NamedSnoc(old(m), meta, imps, true, i);
        var name := EntryName(meta, imps[i], true);
        if name != "" {
          m := m[name := imps[i]];
        }
        i := i + 1;
      }
      assert imps[..i] == imps;
    }

    /** `ReadDir` at time `now`: EIO when the refresh fails, else one entry per name, inode 0. */
    method ReadDir(now: Time, client: Client) returns (r: Result<seq<Dirent>>, issued: seq<Request>)
      modifies this
      ensures Refresh(old(State()), now, client).state == State()
      ensures issued == Refresh(old(State()), now, client).issued
      ensures Refresh(old(State()), now, client).err.Some? ==> r == Err(EIO)
      ensures Refresh(old(State()), now, client).err.None? ==> r.Ok? && NameListing(r.value, m)
    {
      var err;
      err, issued := CondRefresh(now, client);
      if err.Some? {
        return Err(EIO), issued;
      }
      var ents := ListNames(m);
      r := Ok(ents);
    }

    /**
     * `Lookup` at time `now`: the refresh's error, ENOENT for a name that is
     * not listed (or maps to an invalid ref), the memoised child, or a new
     * unpopulated versioned directory for the entry's permanode, memoised.
     */
    method Lookup(name: string, now: Time, client: Client) returns (r: Result<Rover.RoDirV>, issued: seq<Request>)
      requires Valid()
      modifies this
      ensures Valid()
      ensures var o := Refresh(old(State()), now, client);
        && issued == o.issued
        && lastQuery == o.state.lastQuery && m == o.state.m
        && (o.err.Some? ==> r == Err(o.err.value) && children == o.state.children)
        && (o.err.None? && !(name in m && m[name].Valid()) ==> r == Err(ENOENT) && children == o.state.children)
        && (o.err.None? && name in m && m[name].Valid() ==>
              && r.Ok? && o.state.children.Some?
              && children == Some(o.state.children.value[name := r.value])
              && (name in o.state.children.value ==> r.value == o.state.children.value[name])
              && (name !in o.state.children.value ==>
                    && fresh(r.value) && r.value.children.None? && r.value.xattrs.None?
                    && r.value.fs == fs && r.value.permanode == m[name] && r.value.name == name))
    {
      ghost var s := State();
      RefreshKeepsValid(s, now, client);
      var err;
      err, issued := CondRefresh(now, client);
      if err.Some? {
        return Err(err.value), issued;
      }
      if name !in m || !m[name].Valid() {
        return Err(ENOENT), issued;
      }
      var br := m[name];
      if name in children.value {
        r := Ok(children.value[name]);
        assert children.value[name := r.value] == children.value;
        return;
      }
      var nod := new Rover.RoDirV(fs, br, name, None);
      children := Some(children.value[name := nod]);
      r := Ok(nod);
    }
  }

  /** The reference appends of `condRefresh`: the root permanodes, then the importer root permanodes. */
  method CollectRefs(roots: seq<BlobRef>, imps: seq<BlobRef>) returns (refs: seq<BlobRef>)
    ensures refs == roots + imps
  {
    refs := [];
    for i := 0 to |roots|
      invariant refs == roots[..i]
    {
      refs := refs + [roots[i]];
    }
    for i := 0 to |imps|
      invariant refs == roots + imps[..i]
    {
      refs := refs + [imps[i]];
    }
  }
}
