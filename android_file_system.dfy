/**
 * The Android file system's mapping between storage-access-framework
 * document URIs and paths: which URIs are tree URIs, how a tree or
 * document URI names a path inside a storage volume, the table of volumes
 * that document URIs can name, the trie of persisted URI permissions
 * built over path names, the lookup of the document URI for a path, and
 * the two caches the file system keeps and drops.
 */
module AndroidFileSystems {
  import opened Wrappers
  import opened UnixPaths
  import UnixPathProperties

  const SCHEME_CONTENT: string := "content"
  const AUTHORITY_DOCUMENTS: string := "com.android.externalstorage.documents"
  const PATH_TREE: string := "tree"
  const PATH_DOCUMENT: string := "document"
  /** The name, and document-table key, of the primary volume when it has no uuid. */
  const PRIMARY_NAME: string := "primary"

  /** `Intent.FLAG_GRANT_READ_URI_PERMISSION` and its write and persistable siblings. */
  const FLAG_READ: bv32 := 0x01
  const FLAG_WRITE: bv32 := 0x02
  const FLAG_PERSISTABLE: bv32 := 0x40
  const FLAG_READ_WRITE: bv32 := 0x03
  const FLAG_PERSISTABLE_READ_WRITE: bv32 := 0x43

  /** A URI as far as the file system reads it: scheme, authority and decoded path segments. */
  datatype Uri = Uri(scheme: string, authority: string, segments: seq<string>)

  /** A storage volume: its uuid (if any), whether it is the primary one, its name and mount path. */
  datatype Store = Store(uuid: Option<string>, primary: bool, name: string, path: Path)

  /** A persisted URI permission: the URI it was granted on and the access it gives. */
  datatype UriPermission = UriPermission(uri: Uri, read: bool, write: bool)

  datatype FsError = NotDocumentUri | FileStoreNotFound(uuid: string) | IllegalArgument

  // ---------------------------------------------------------------------
  // Tree and document URIs
  // ---------------------------------------------------------------------

  /** A URI of the external-storage documents provider. */
  predicate IsDocumentsUri(uri: Uri) {
    uri.scheme == SCHEME_CONTENT && uri.authority == AUTHORITY_DOCUMENTS
  }

  /** `isTreeUri`: a documents URI whose path is exactly "tree/<id>". */
  predicate IsTreeUri(uri: Uri) {
    IsDocumentsUri(uri) && |uri.segments| == 2 && uri.segments[0] == PATH_TREE
  }

  /** The tree URI of a document id. */
  function TreeUri(id: string): (uri: Uri)
    ensures IsTreeUri(uri) && uri.segments[1] == id
  {
    Uri(SCHEME_CONTENT, AUTHORITY_DOCUMENTS, [PATH_TREE, id])
  }

  /** `indexOf(':')`: the position of the first colon, if there is one. */
  function Colon(s: string): (r: Option<nat>)
    ensures r.None? <==> ':' !in s
    ensures r.Some? ==> r.value < |s| && s[r.value] == ':' && ':' !in s[..r.value]
  {
    if s == [] then None
    else if s[0] == ':' then Some(0)
    else match Colon(s[1..])
      case None => None
      case Some(i) =>
        assert s[..i + 1] == [s[0]] + s[1..][..i];
        Some(i + 1)
  }

  /**
   * `getPath(Uri)`: "tree/<uuid>:<rel>" names `rel` inside the volume with
   * that uuid, and so does "tree/<id>/document/<name>:<rel>" when `name` is
   * that volume's name; a uuid with no volume is reported as such, and
   * every other URI is not a document URI.
   */
  function GetPath(stores: map<string, Store>, uri: Uri): (r: Result<Path, FsError>)
    ensures !(IsDocumentsUri(uri) && |uri.segments| >= 2 && uri.segments[0] == PATH_TREE) ==>
      r == Failure(NotDocumentUri)
    ensures r.Success? ==> |uri.segments| == 2 || (|uri.segments| == 4 && uri.segments[2] == PATH_DOCUMENT)
    ensures r.Failure? && r.error.FileStoreNotFound? ==>
      |uri.segments| >= 2 && Colon(uri.segments[1]).Some? && r.error.uuid !in stores
  {
    if IsDocumentsUri(uri) && |uri.segments| >= 2 && uri.segments[0] == PATH_TREE then
      var id := uri.segments[1];
      match Colon(id)
      case None => Failure(NotDocumentUri)
      case Some(i) =>
        var uuid := id[..i];
        if uuid !in stores then Failure(FileStoreNotFound(uuid))
        else
          var store := stores[uuid];
          if |uri.segments| == 2 then Success(ResolveText(store.path, id[i + 1..]))
          else if |uri.segments| == 4 && uri.segments[2] == PATH_DOCUMENT then
            var doc := uri.segments[3];
            match Colon(doc)
            case Some(j) =>
              if store.name == doc[..j] then Success(ResolveText(store.path, doc[j + 1..]))
              else Failure(NotDocumentUri)
            case None => Failure(NotDocumentUri)
          else Failure(NotDocumentUri)
    else Failure(NotDocumentUri)
  }

  /**
   * The document URI below a tree URI for a path relative to a volume:
   * the segments "document" and "<name>:<rel>" appended.
   */
  function DocumentUri(tree: Uri, store: Store, rel: Path): (uri: Uri)
    ensures uri.scheme == tree.scheme && uri.authority == tree.authority
    ensures |uri.segments| == |tree.segments| + 2
    ensures uri.segments[..|tree.segments|] == tree.segments && uri.segments[|tree.segments|] == PATH_DOCUMENT
  {
    var uri := Uri(tree.scheme, tree.authority, tree.segments + [PATH_DOCUMENT, store.name + ":" + ToString(rel)]);
    assert uri.segments[..|tree.segments|] == tree.segments;
    uri
  }

  lemma ColonAfter(a: string, b: string)
    requires ':' !in a
    ensures Colon(a + ":" + b) == Some(|a|)
    ensures (a + ":" + b)[..|a|] == a && (a + ":" + b)[|a| + 1..] == b
  {
    var s := a + ":" + b;
    var r := Colon(s);
    assert s[|a|] == ':';
    assert s[..|a|] == a;
    assert forall k :: 0 <= k < |a| ==> s[k] == a[k];
  }

  /** A tree URI "tree/<uuid>:<rel>" names `rel` inside the volume with that uuid. */
  lemma GetPathOfTree(stores: map<string, Store>, uuid: string, rel: string)
    requires ':' !in uuid
    ensures uuid in stores ==>
      GetPath(stores, TreeUri(uuid + ":" + rel)) == Success(ResolveText(stores[uuid].path, rel))
    ensures uuid !in stores ==>
      GetPath(stores, TreeUri(uuid + ":" + rel)) == Failure(FileStoreNotFound(uuid))
  {
    ColonAfter(uuid, rel);
  }

  /**
   * The document URI built below the tree URI of a volume names the
   * volume's path resolved with the relative path.
   */
  lemma GetPathOfDocument(stores: map<string, Store>, uuid: string, id: string, rel: Path)
    requires ':' !in uuid && uuid in stores && ':' !in stores[uuid].name && Valid(rel)
    ensures GetPath(stores, DocumentUri(TreeUri(uuid + ":" + id), stores[uuid], rel)) ==
      Success(Resolve(stores[uuid].path, rel))
  {
    var store := stores[uuid];
    var uri := DocumentUri(TreeUri(uuid + ":" + id), store, rel);
    ColonAfter(uuid, id);
    ColonAfter(store.name, ToString(rel));
    assert uri.segments[1] == uuid + ":" + id;
    assert uri.segments[3] == store.name + ":" + ToString(rel);
    UnixPathProperties.ParseToString(rel);
  }

  /** A document URI whose name is not the volume's own is not a document URI. */
  lemma GetPathOtherName(stores: map<string, Store>, uuid: string, id: string, name: string, rel: string)
    requires ':' !in uuid && uuid in stores && ':' !in name && name != stores[uuid].name
    ensures GetPath(stores, Uri(SCHEME_CONTENT, AUTHORITY_DOCUMENTS,
      [PATH_TREE, uuid + ":" + id, PATH_DOCUMENT, name + ":" + rel])) == Failure(NotDocumentUri)
  {
    ColonAfter(uuid, id);
    ColonAfter(name, rel);
  }

  // ---------------------------------------------------------------------
  // Taking and releasing persistable permissions
  // ---------------------------------------------------------------------

  /**
   * The check shared by taking and releasing a persistable permission:
   * only a tree URI, and only with read, write and persistable all set;
   * the content resolver is then passed read and write.
   */
  function PersistableFlags(uri: Uri, flags: bv32): (r: Result<bv32, FsError>)
    ensures !IsTreeUri(uri) ==> r == Failure(NotDocumentUri)
    ensures r.Success? <==> IsTreeUri(uri) && flags & FLAG_READ != 0 && flags & FLAG_WRITE != 0 && flags & FLAG_PERSISTABLE != 0
    ensures r.Failure? && IsTreeUri(uri) ==> r.error == FsError.IllegalArgument
    ensures r.Success? ==> r.value == FLAG_READ_WRITE
  {
    if !IsTreeUri(uri) then Failure(NotDocumentUri)
    else
      var masked := flags & FLAG_PERSISTABLE_READ_WRITE;
      if masked != FLAG_PERSISTABLE_READ_WRITE then Failure(FsError.IllegalArgument)
      else Success(masked & FLAG_READ_WRITE)
  }

  /** Bits other than read, write and persistable make no difference. */
  lemma PersistableFlagsIgnoreOthers(uri: Uri, flags: bv32, other: bv32)
    requires other & FLAG_PERSISTABLE_READ_WRITE == 0
    ensures PersistableFlags(uri, flags | other) == PersistableFlags(uri, flags)
  {
    assert (flags | other) & FLAG_PERSISTABLE_READ_WRITE == flags & FLAG_PERSISTABLE_READ_WRITE;
  }

  // ---------------------------------------------------------------------
  // The table of volumes that document URIs name
  // ---------------------------------------------------------------------

  /** The key a volume is filed under: its uuid, "primary" for a primary volume without one, else none. */
  function StoreKey(store: Store): (k: Option<string>)
    ensures store.uuid.Some? ==> k == store.uuid
    ensures store.uuid.None? ==> (k.Some? <==> store.primary)
  {
    if store.uuid.Some? then store.uuid
    else if store.primary then Some(PRIMARY_NAME)
    else None
  }

  /** The table after putting each volume in turn, a later one replacing an earlier one under the same key. */
  function DocumentStores(stores: seq<Store>): map<string, Store> {
    if stores == [] then map[]
    else
      var m := DocumentStores(stores[..|stores| - 1]);
      var last := stores[|stores| - 1];
      if StoreKey(last).Some? then m[StoreKey(last).value := last] else m
  }

  /** `toMap`: fills the table volume by volume. */
  method ToMap(stores: seq<Store>) returns (m: map<string, Store>)
    ensures m == DocumentStores(stores)
  {
    m := map[];
    var i := 0;
    while i < |stores|
      invariant 0 <= i <= |stores|
      invariant m == DocumentStores(stores[..i])
    {
      var store := stores[i];
      assert stores[..i + 1][..i] == stores[..i];
      var key := StoreKey(store);
      if key.Some? {
        m := m[key.value := store];
      }
      i := i + 1;
    }
    assert stores[..i] == stores;
  }

  /**
   * A key is in the table exactly when some volume has it; its entry is
   * the last volume with that key.
   */
  lemma DocumentStoresSpec(stores: seq<Store>, k: string)
    ensures k in DocumentStores(stores) <==> exists i :: 0 <= i < |stores| && StoreKey(stores[i]) == Some(k)
    ensures k in DocumentStores(stores) ==>
      exists i :: 0 <= i < |stores| && DocumentStores(stores)[k] == stores[i] && StoreKey(stores[i]) == Some(k)
        && forall j :: i < j < |stores| ==> StoreKey(stores[j]) != Some(k)
  {
    DocumentStoresKeys(stores, k);
    if k in DocumentStores(stores) {
      var i := DocumentStoresLast(stores, k);
    }
  }

  /** A key is in the table exactly when some volume has it. */
  lemma {:induction false} DocumentStoresKeys(stores: seq<Store>, k: string)
    ensures k in DocumentStores(stores) <==> exists i :: 0 <= i < |stores| && StoreKey(stores[i]) == Some(k)
  {
    if stores != [] {
      var n := |stores| - 1;
      var init := stores[..n];
      DocumentStoresKeys(init, k);
      assert forall i :: 0 <= i < n ==> init[i] == stores[i];
    }
  }

  /** The entry under a key is the volume `i`, the last one with that key. */
  lemma {:induction false} DocumentStoresLast(stores: seq<Store>, k: string) returns (i: nat)
    requires k in DocumentStores(stores)
    ensures i < |stores| && DocumentStores(stores)[k] == stores[i] && StoreKey(stores[i]) == Some(k)
    ensures forall j :: i < j < |stores| ==> StoreKey(stores[j]) != Some(k)
  {
    var n := |stores| - 1;
    if StoreKey(stores[n]) == Some(k) {
      i := n;
    } else {
      var init := stores[..n];
      i := DocumentStoresLast(init, k);
      assert init[i] == stores[i];
      assert forall j :: i < j < n ==> init[j] == stores[j];
    }
  }

  /** Every volume with a uuid can be looked up by it; a volume without one and not primary cannot. */
  lemma DocumentStoresFiles(stores: seq<Store>, i: nat)
    requires i < |stores|
    ensures StoreKey(stores[i]).Some? ==> StoreKey(stores[i]).value in DocumentStores(stores)
    ensures stores[i].uuid.None? && !stores[i].primary ==>
      forall k :: k in DocumentStores(stores) ==> DocumentStores(stores)[k] != stores[i]
  {
    if StoreKey(stores[i]).Some? {
      DocumentStoresSpec(stores, StoreKey(stores[i]).value);
    }
    forall k | k in DocumentStores(stores)
      ensures StoreKey(DocumentStores(stores)[k]) == Some(k)
    {
      DocumentStoresSpec(stores, k);
    }
  }

  /** The persisted permission's tree URI names a volume in the table: that volume and the path it names. */
  function PersistedPath(stores: map<string, Store>, permission: UriPermission): Option<(Store, Path)> {
    var uri := permission.uri;
    if IsTreeUri(uri) then
      match Colon(uri.segments[1])
      case None => None
      case Some(i) =>
        var uuid := uri.segments[1][..i];
        if uuid in stores then Some((stores[uuid], ResolveText(stores[uuid].path, uri.segments[1][i + 1..])))
        else None
    else None
  }

  /** A persisted permission is filed exactly where `getPath` takes its tree URI. */
  lemma PersistedPathIsGetPath(stores: map<string, Store>, permission: UriPermission)
    ensures PersistedPath(stores, permission).Some? <==>
      IsTreeUri(permission.uri) && GetPath(stores, permission.uri).Success?
    ensures PersistedPath(stores, permission).Some? ==>
      GetPath(stores, permission.uri) == Success(PersistedPath(stores, permission).value.1)
  {
  }

  // ---------------------------------------------------------------------
  // The permission trie
  // ---------------------------------------------------------------------

  /**
   * A node of the trie, at the names of its path: the volume it was added
   * for, the persisted permission granted on it, and whether it is an
   * app-private directory that needs no permission.
   */
  datatype Entry = Entry(path: Path, store: Option<Store>, permission: Option<UriPermission>, unprotected: bool)

  /** The node at the root directory: no volume, no permission. */
  const RootEntry: Entry := Entry(Root, None, None, false)

  /** What a descent leaves at its last position. */
  datatype Mark = Unprotect | Permit(permission: UriPermission)

  /** How the descent classifies the node at one position of the path. */
  datatype Step = MissingDirectory | MissingFile | Directory | File

  type Nodes = map<seq<string>, Entry>

  /** Position `i` names the prefix of `i + 1` names; the last position is the file, the others directories. */
  function Classify(nodes: Nodes, names: seq<string>, i: nat): (step: Step)
    requires i < |names|
    ensures step.Directory? || step.File? <==> names[..i + 1] in nodes
    ensures step.File? || step.MissingFile? <==> i + 1 == |names|
  {
    var present := names[..i + 1] in nodes;
    if i + 1 < |names| then (if present then Directory else MissingDirectory)
    else (if present then File else MissingFile)
  }

  /** An existing node at the last position: unprotected set, or its permission replaced. */
  function Marked(e: Entry, mark: Mark): (r: Entry)
    ensures r.path == e.path && r.store == e.store
    ensures mark.Unprotect? ==> r.unprotected && r.permission == e.permission
    ensures mark.Permit? ==> r.permission == Some(mark.permission) && r.unprotected == e.unprotected
  {
    match mark
    case Unprotect => e.(unprotected := true)
    case Permit(p) => e.(permission := Some(p))
  }

  /** A new node at the last position, for the whole path. */
  function Fresh(path: Path, store: Store, mark: Mark): Entry {
    match mark
    case Unprotect => Entry(path, Some(store), None, true)
    case Permit(p) => Entry(path, Some(store), Some(p), false)
  }

  /** A new node at a directory position: its parent's path resolved with the name. */
  function Intermediate(parent: Entry, name: string, store: Store): Entry {
    Entry(ResolveText(parent.path, name), Some(store), None, false)
  }

  /** One step of the descent, at position `i`. */
  function Visit(nodes: Nodes, path: Path, store: Store, mark: Mark, i: nat): Nodes
    requires i < |path.names| && path.names[..i] in nodes
  {
    var key := path.names[..i + 1];
    match Classify(nodes, path.names, i)
    case MissingDirectory => nodes[key := Intermediate(nodes[path.names[..i]], path.names[i], store)]
    case MissingFile => nodes[key := Fresh(path, store, mark)]
    case File => nodes[key := Marked(nodes[key], mark)]
    case Directory => nodes
  }

  /** The trie after the first `n` steps of the descent along `path`. */
  function Descended(nodes: Nodes, path: Path, store: Store, mark: Mark, n: nat): (m: Nodes)
    requires n <= |path.names| && [] in nodes
    ensures nodes.Keys <= m.Keys
    ensures forall i :: 0 <= i <= n ==> path.names[..i] in m
  {
    if n == 0 then nodes
    else
      var prev := Descended(nodes, path, store, mark, n - 1);
      Visit(prev, path, store, mark, n - 1)
  }

  /** The trie after a whole descent along `path`. */
  function Granted(nodes: Nodes, path: Path, store: Store, mark: Mark): (m: Nodes)
    requires [] in nodes
    ensures nodes.Keys <= m.Keys && path.names in m
  {
    assert path.names[..|path.names|] == path.names;
    Descended(nodes, path, store, mark, |path.names|)
  }

  /** The names of the node above `k`. */
  function ParentKey(k: seq<string>): seq<string>
    requires k != []
  {
    k[..|k| - 1]
  }

  /** Every prefix of a node's names is a node, and every node but the root belongs to a volume. */
  ghost predicate WellFormed(nodes: Nodes) {
    && [] in nodes && nodes[[]] == RootEntry
    && (forall k :: k in nodes && k != [] ==> ParentKey(k) in nodes)
    && (forall k :: k in nodes && k != [] ==> nodes[k].store.Some?)
  }

  /** After the first `n` steps the new nodes are the path's first `n` prefixes. */
  lemma {:induction false} DescendedKeys(nodes: Nodes, path: Path, store: Store, mark: Mark, n: nat)
    requires n <= |path.names| && [] in nodes
    ensures forall k :: k in Descended(nodes, path, store, mark, n) ==>
      k in nodes || exists i :: 0 < i <= n && k == path.names[..i]
  {
    if n > 0 {
      DescendedKeys(nodes, path, store, mark, n - 1);
      assert path.names[..n - 1 + 1] == path.names[..n];
    }
  }

  /** Every node that was there keeps its entry, except the one at the whole path once it is reached. */
  lemma {:induction false} DescendedKeeps(nodes: Nodes, path: Path, store: Store, mark: Mark, n: nat)
    requires n <= |path.names| && [] in nodes
    ensures forall k :: k in nodes && (k != path.names || n < |path.names|) ==>
      Descended(nodes, path, store, mark, n)[k] == nodes[k]
  {
    if n > 0 {
      DescendedKeeps(nodes, path, store, mark, n - 1);
      var prev := Descended(nodes, path, store, mark, n - 1);
      var key := path.names[..n];
      assert path.names[..n - 1 + 1] == key;
      forall k | k in nodes && (k != path.names || n < |path.names|)
        ensures Descended(nodes, path, store, mark, n)[k] == nodes[k]
      {
        if k == key {
          assert n == |path.names| ==> key == path.names;
          assert Classify(prev, path.names, n - 1) == Directory;
        }
      }
    }
  }

  /** One step of the descent leaves every other node as it was. */
  lemma VisitOther(nodes: Nodes, path: Path, store: Store, mark: Mark, i: nat, k: seq<string>)
    requires i < |path.names| && path.names[..i] in nodes
    requires k in nodes && k != path.names[..i + 1]
    ensures k in Visit(nodes, path, store, mark, i) && Visit(nodes, path, store, mark, i)[k] == nodes[k]
  {
  }

  /** A step at a missing directory makes the node from its parent. */
  lemma VisitMissingDirectory(nodes: Nodes, path: Path, store: Store, mark: Mark, i: nat)
    requires i + 1 < |path.names| && path.names[..i] in nodes && path.names[..i + 1] !in nodes
    ensures Visit(nodes, path, store, mark, i)[path.names[..i + 1]] ==
      Intermediate(nodes[path.names[..i]], path.names[i], store)
  {
  }

  /** The step at the last position marks the node there, or makes a new one. */
  lemma VisitLast(nodes: Nodes, path: Path, store: Store, mark: Mark)
    requires path.names != [] && path.names[..|path.names| - 1] in nodes
    ensures path.names[..|path.names|] == path.names
    ensures Visit(nodes, path, store, mark, |path.names| - 1)[path.names[..|path.names|]] ==
      if path.names in nodes then Marked(nodes[path.names], mark) else Fresh(path, store, mark)
  {
    assert path.names[..|path.names|] == path.names;
  }

  /** Names longer than the steps taken are not nodes yet, unless they were before. */
  lemma {:induction false} DescendedShort(nodes: Nodes, path: Path, store: Store, mark: Mark, n: nat, k: seq<string>)
    requires n <= |path.names| && [] in nodes
    requires k !in nodes && |k| > n
    ensures k !in Descended(nodes, path, store, mark, n)
  {
    if n > 0 {
      DescendedShort(nodes, path, store, mark, n - 1, k);
      assert |path.names[..n - 1 + 1]| == n;
    }
  }

  /** A node made at a directory position is its parent's path resolved with the name, and stays so. */
  lemma {:induction false} DescendedIntermediate(nodes: Nodes, path: Path, store: Store, mark: Mark, n: nat, i: nat)
    requires n <= |path.names| && [] in nodes
    requires 0 < i <= n && i < |path.names| && path.names[..i] !in nodes
    ensures var m := Descended(nodes, path, store, mark, n);
      m[path.names[..i]] == Intermediate(m[path.names[..i - 1]], path.names[i - 1], store)
  {
    var prev := Descended(nodes, path, store, mark, n - 1);
    var m := Descended(nodes, path, store, mark, n);
    assert m == Visit(prev, path, store, mark, n - 1);
    var key, here, up := path.names[..n - 1 + 1], path.names[..i], path.names[..i - 1];
    assert |key| == n && |here| == i && |up| == i - 1;
    if i < n {
      DescendedIntermediate(nodes, path, store, mark, n - 1, i);
      VisitOther(prev, path, store, mark, n - 1, here);
      VisitOther(prev, path, store, mark, n - 1, up);
    } else {
      DescendedShort(nodes, path, store, mark, n - 1, here);
      VisitMissingDirectory(prev, path, store, mark, n - 1);
      VisitOther(prev, path, store, mark, n - 1, up);
    }
  }

  /** The node at the whole path is the existing one marked, or a new one. */
  lemma DescendedLast(nodes: Nodes, path: Path, store: Store, mark: Mark)
    requires [] in nodes && path.names != []
    ensures Granted(nodes, path, store, mark)[path.names] ==
      if path.names in nodes then Marked(nodes[path.names], mark) else Fresh(path, store, mark)
  {
    var n := |path.names|;
    var prev := Descended(nodes, path, store, mark, n - 1);
    if path.names in nodes {
      DescendedKeeps(nodes, path, store, mark, n - 1);
      assert prev[path.names] == nodes[path.names];
    } else {
      DescendedShort(nodes, path, store, mark, n - 1, path.names);
      assert path.names !in prev;
    }
    VisitLast(prev, path, store, mark);
    assert Granted(nodes, path, store, mark) == Visit(prev, path, store, mark, n - 1);
  }

  /** A descent keeps the trie well formed. */
  lemma GrantedWellFormed(nodes: Nodes, path: Path, store: Store, mark: Mark)
    requires WellFormed(nodes)
    ensures WellFormed(Granted(nodes, path, store, mark))
  {
    var n := |path.names|;
    var m := Granted(nodes, path, store, mark);
    DescendedKeys(nodes, path, store, mark, n);
    DescendedKeeps(nodes, path, store, mark, n);
    if n > 0 {
      DescendedLast(nodes, path, store, mark);
    }
    assert path.names[..0] == [];
    if n == 0 {
      assert m == nodes;
    }
    forall k | k in m && k != []
      ensures ParentKey(k) in m && m[k].store.Some?
    {
      if k !in nodes {
        var i :| 0 < i <= n && k == path.names[..i];
        assert ParentKey(k) == path.names[..i - 1];
        if i < n {
          DescendedIntermediate(nodes, path, store, mark, n, i);
        } else {
          assert k == path.names;
        }
      }
    }
  }

  // ---------------------------------------------------------------------
  // Looking up the document URI of a path
  // ---------------------------------------------------------------------

  /** A permission good for both reading and writing. */
  predicate ReadWrite(e: Entry) {
    e.permission.Some? && e.permission.value.read && e.permission.value.write
  }

  /** Some node among the first `n` prefixes of `names` (the root excluded) is an app-private directory. */
  ghost predicate UnprotectedWithin(nodes: Nodes, names: seq<string>, n: nat)
    requires n <= |names|
  {
    exists i :: 0 < i <= n && names[..i] in nodes && nodes[names[..i]].unprotected
  }

  /** The length of the shortest of the first `n` prefixes whose node holds a read-write permission. */
  function ShortestGrant(nodes: Nodes, names: seq<string>, n: nat): (r: Option<nat>)
    requires n <= |names|
    ensures r.Some? ==> 0 < r.value <= n && names[..r.value] in nodes && ReadWrite(nodes[names[..r.value]])
    ensures r.Some? ==> forall j :: 0 < j < r.value && names[..j] in nodes ==> !ReadWrite(nodes[names[..j]])
    ensures r.None? ==> forall j :: 0 < j <= n && names[..j] in nodes ==> !ReadWrite(nodes[names[..j]])
  {
    if n == 0 then None
    else
      match ShortestGrant(nodes, names, n - 1)
      case Some(i) => Some(i)
      case None => if names[..n] in nodes && ReadWrite(nodes[names[..n]]) then Some(n) else None
  }

  /**
   * `getTreeDocumentUri`: a relative path is refused; a path through an
   * app-private directory, or with no read-write grant on the way, or whose
   * shortest grant is on the primary volume, has none; otherwise the
   * document URI below that grant's tree URI names the path relative to the
   * grant's volume.
   */
  ghost function DocumentUriOf(nodes: Nodes, path: Path): Result<Option<Uri>, FsError>
    requires WellFormed(nodes)
  {
    if !path.absolute then Failure(FsError.IllegalArgument)
    else if UnprotectedWithin(nodes, path.names, |path.names|) then Success(None)
    else
      match ShortestGrant(nodes, path.names, |path.names|)
      case None => Success(None)
      case Some(i) =>
        var e := nodes[path.names[..i]];
        var store := e.store.value;
        if store.primary then Success(None)
        else
          match Relativize(store.path, path)
          case Failure(_) => Failure(FsError.IllegalArgument)
          case Success(rel) => Success(Some(DocumentUri(e.permission.value.uri, store, rel)))
  }

  /**
   * The entry of the shortest read-write grant among the first `n` prefixes,
   * as the lookup's `shortest` holds it.
   */
  ghost function ShortestEntry(nodes: Nodes, names: seq<string>, n: nat): Option<Entry>
    requires n <= |names|
  {
    match ShortestGrant(nodes, names, n)
    case None => None
    case Some(i) => Some(nodes[names[..i]])
  }

  /** Looking one position further: the new prefix may be an app-private directory. */
  lemma UnprotectedWithinStep(nodes: Nodes, names: seq<string>, i: nat)
    requires i < |names|
    ensures UnprotectedWithin(nodes, names, i + 1) <==>
      UnprotectedWithin(nodes, names, i) || (names[..i + 1] in nodes && nodes[names[..i + 1]].unprotected)
  {
    if UnprotectedWithin(nodes, names, i + 1) {
      var j :| 0 < j <= i + 1 && names[..j] in nodes && nodes[names[..j]].unprotected;
      if j <= i {
        assert UnprotectedWithin(nodes, names, i);
      }
    }
  }

  /** An app-private directory among the first `i` prefixes is one among the first `n`, for `i <= n`. */
  lemma UnprotectedWithinMore(nodes: Nodes, names: seq<string>, i: nat, n: nat)
    requires i <= n <= |names| && UnprotectedWithin(nodes, names, i)
    ensures UnprotectedWithin(nodes, names, n)
  {
    var j :| 0 < j <= i && names[..j] in nodes && nodes[names[..j]].unprotected;
    assert 0 < j <= n;
  }

  /** Looking one position further: the first read-write grant stays, or the new prefix holds one. */
  lemma ShortestEntryStep(nodes: Nodes, names: seq<string>, i: nat)
    requires i < |names|
    ensures ShortestEntry(nodes, names, i + 1) ==
      if ShortestEntry(nodes, names, i).Some? then ShortestEntry(nodes, names, i)
      else if names[..i + 1] in nodes && ReadWrite(nodes[names[..i + 1]]) then Some(nodes[names[..i + 1]])
      else None
  {
  }

  /** A descent never clears the mark of an app-private directory. */
  lemma GrantedKeepsUnprotected(nodes: Nodes, path: Path, store: Store, mark: Mark, k: seq<string>)
    requires [] in nodes && k in nodes && nodes[k].unprotected
    ensures k in Granted(nodes, path, store, mark) && Granted(nodes, path, store, mark)[k].unprotected
  {
    DescendedKeeps(nodes, path, store, mark, |path.names|);
    if path.names == [] {
      assert Granted(nodes, path, store, mark) == nodes;
    } else if k == path.names {
      DescendedLast(nodes, path, store, mark);
    }
  }

  /**
   * After an app-private directory is marked, no path at or below it has a
   * document URI.
   */
  lemma UnprotectedHides(nodes: Nodes, dir: Path, store: Store, path: Path)
    requires WellFormed(nodes) && dir.names != []
    requires path.absolute && StartsWith(path, dir)
    ensures WellFormed(Granted(nodes, dir, store, Unprotect))
    ensures DocumentUriOf(Granted(nodes, dir, store, Unprotect), path) == Success(None)
  {
    var m := Granted(nodes, dir, store, Unprotect);
    GrantedWellFormed(nodes, dir, store, Unprotect);
    DescendedLast(nodes, dir, store, Unprotect);
    var n := |dir.names|;
    assert path.names[..n] in m && m[path.names[..n]].unprotected;
    assert UnprotectedWithin(m, path.names, |path.names|);
  }

  /**
   * A read-write grant on a path with no app-private directory and no other
   * read-write grant above it gives the path a document URI below the
   * grant's tree URI, for the volume of the node at the path.
   */
  lemma GrantFound(nodes: Nodes, path: Path, store: Store, permission: UriPermission)
    requires WellFormed(nodes) && path.absolute && path.names != []
    requires permission.read && permission.write
    requires forall i :: 0 < i <= |path.names| && path.names[..i] in nodes ==>
      !nodes[path.names[..i]].unprotected && (i < |path.names| ==> !ReadWrite(nodes[path.names[..i]]))
    ensures WellFormed(Granted(nodes, path, store, Permit(permission)))
    ensures var owner := if path.names in nodes then nodes[path.names].store.value else store;
      DocumentUriOf(Granted(nodes, path, store, Permit(permission)), path) ==
        if owner.primary then Success(None)
        else match Relativize(owner.path, path)
          case Failure(_) => Failure(FsError.IllegalArgument)
          case Success(rel) => Success(Some(DocumentUri(permission.uri, owner, rel)))
  {
    var n := |path.names|;
    var mark := Permit(permission);
    var m := Granted(nodes, path, store, mark);
    GrantedWellFormed(nodes, path, store, mark);
    DescendedLast(nodes, path, store, mark);
    DescendedKeeps(nodes, path, store, mark, n);
    assert path.names[..n] == path.names;
    forall i | 0 < i < n
      ensures path.names[..i] in m && !m[path.names[..i]].unprotected && !ReadWrite(m[path.names[..i]])
    {
      if path.names[..i] !in nodes {
        DescendedIntermediate(nodes, path, store, mark, n, i);
      }
    }
    assert !UnprotectedWithin(m, path.names, n);
    assert ShortestGrant(m, path.names, n) == Some(n);
  }

  /**
   * A document URI made for a path, read back with `getPath`, names a path
   * with the same normal form, when the volume's path is normal and has no
   * "..".
   */
  lemma DocumentUriRoundTrip(stores: map<string, Store>, uuid: string, id: string, path: Path)
    requires ':' !in uuid && uuid in stores && ':' !in stores[uuid].name
    requires var base := stores[uuid].path;
      Valid(base) && Valid(path) && base.absolute == path.absolute
      && Normalize(base) == base && DotDot !in NormalNames(base)
    ensures var store := stores[uuid];
      var rel := Relativize(store.path, path).value;
      && GetPath(stores, DocumentUri(TreeUri(uuid + ":" + id), store, rel)) == Success(Resolve(store.path, rel))
      && Normalize(Resolve(store.path, rel)) == Normalize(path)
  {
    var store := stores[uuid];
    var rel := Relativize(store.path, path).value;
    GetPathOfDocument(stores, uuid, id, rel);
    UnixPathProperties.RelativizeResolve(store.path, path);
  }

  /**
   * The trie of permissions: one node per name prefix, created on demand as
   * grants are added along paths.
   */
  class PermissionTrie {
    var nodes: Nodes

    ghost predicate Valid()
      reads this
    {
      WellFormed(nodes)
    }

    constructor ()
      ensures nodes == map[[] := RootEntry] && Valid()
    {
      nodes := map[[] := RootEntry];
    }

    /**
     * One descent of `loadUriPermissions`: a missing directory gets a new
     * node, an existing one is left alone, and the last position gets a new
     * node or has its existing one marked.
     */
    method Grant(path: Path, store: Store, mark: Mark)
      requires Valid()
      modifies this
      ensures nodes == Granted(old(nodes), path, store, mark)
      ensures Valid()
    {
      GrantedWellFormed(nodes, path, store, mark);
      ghost var start := nodes;
      var i := 0;
      while i < |path.names|
        invariant 0 <= i <= |path.names|
        invariant nodes == Descended(start, path, store, mark, i)
      {
        VisitAt(path, store, mark, i);
        i := i + 1;
      }
    }

    /**
     * The descent of `getTreeDocumentUri`: whether it meets an app-private
     * directory and, if not, the shortest read-write grant on the way.
     */
    method Lookup(path: Path) returns (hidden: bool, shortest: Option<Entry>)
      ensures hidden == UnprotectedWithin(nodes, path.names, |path.names|)
      ensures !hidden ==> shortest == ShortestEntry(nodes, path.names, |path.names|)
    {
      shortest := None;
      var i := 0;
      while i < |path.names|
        invariant 0 <= i <= |path.names|
        invariant !UnprotectedWithin(nodes, path.names, i)
        invariant shortest == ShortestEntry(nodes, path.names, i)
      {
        UnprotectedWithinStep(nodes, path.names, i);
        ShortestEntryStep(nodes, path.names, i);
        var step := Classify(nodes, path.names, i);
        if step.Directory? || step.File? {
          var entry := nodes[path.names[..i + 1]];
          if entry.unprotected {
            UnprotectedWithinMore(nodes, path.names, i + 1, |path.names|);
            return true, shortest;
          }
          if shortest.None? && ReadWrite(entry) {
            shortest := Some(entry);
          }
        }
        i := i + 1;
      }
      return false, shortest;
    }

    /** `getTreeDocumentUri` on this trie: one descent, remembering the shortest read-write grant. */
    method TreeDocumentUri(path: Path) returns (r: Result<Option<Uri>, FsError>)
      requires Valid()
      ensures r == DocumentUriOf(nodes, path)
    {
      if !path.absolute {
        return Failure(FsError.IllegalArgument);
      }
      var hidden, shortest := Lookup(path);
      if hidden || shortest.None? || shortest.value.store.value.primary {
        return Success(None);
      }
      var store := shortest.value.store.value;
      match Relativize(store.path, path) {
        case Failure(_) =>
          r := Failure(FsError.IllegalArgument);
        case Success(rel) =>
          r := Success(Some(DocumentUri(shortest.value.permission.value.uri, store, rel)));
      }
    }

    /**
     * The first loop of `loadUriPermissions`: marks the private directory of
     * each volume of `stores`, in the order the table's values come in.
     */
    method GrantPrivateDirectories(stores: map<string, Store>, package: string) returns (ghost order: seq<Store>)
      requires Valid()
      modifies this
      ensures Valid() && nodes == PrivateGrants(old(nodes), order, package)
      ensures forall s :: s in order <==> s in stores.Values
    {
      ghost var start := nodes;
      order := [];
      var keys := stores.Keys;
      while keys != {}
        invariant keys <= stores.Keys
        invariant Valid() && nodes == PrivateGrants(start, order, package)
        invariant forall s :: s in order ==> s in stores.Values
        invariant forall k :: k in stores && k !in keys ==> stores[k] in order
        decreases |keys|
      {
        var k :| k in keys;
        var store := stores[k];
        Grant(PrivatePath(store, package), store, Unprotect);
        ghost var before := order;
        order := order + [store];
        assert order[..|before|] == before;
        keys := keys - {k};
      }
    }

    /** The second loop of `loadUriPermissions`: files each persisted permission, in order. */
    method GrantPersisted(stores: map<string, Store>, persisted: seq<UriPermission>)
      requires Valid()
      modifies this
      ensures Valid() && nodes == PermissionGrants(old(nodes), stores, persisted)
    {
      ghost var start := nodes;
      var i := 0;
      while i < |persisted|
        invariant 0 <= i <= |persisted|
        invariant Valid() && nodes == PermissionGrants(start, stores, persisted[..i])
      {
        assert persisted[..i + 1][..i] == persisted[..i];
        GrantPermission(stores, persisted[i]);
        i := i + 1;
      }
      assert persisted[..|persisted|] == persisted;
    }

    /** One round of the second loop: a permission whose tree URI names no volume is skipped. */
    method GrantPermission(stores: map<string, Store>, permission: UriPermission)
      requires Valid()
      modifies this
      ensures Valid() && nodes == FileGrant(old(nodes), stores, permission)
    {
      match PersistedPath(stores, permission) {
        case None =>
        case Some((store, path)) =>
          Grant(path, store, Permit(permission));
      }
    }

    /** One step of `Grant`, at position `i` of the path. */
    method VisitAt(path: Path, store: Store, mark: Mark, i: nat)
      requires i < |path.names| && path.names[..i] in nodes
      modifies this
      ensures nodes == Visit(old(nodes), path, store, mark, i)
    {
      var key := path.names[..i + 1];
      match Classify(nodes, path.names, i) {
        case MissingDirectory =>
          nodes := nodes[key := Intermediate(nodes[path.names[..i]], path.names[i], store)];
        case MissingFile =>
          nodes := nodes[key := Fresh(path, store, mark)];
        case File =>
          nodes := nodes[key := Marked(nodes[key], mark)];
        case Directory =>
      }
    }
  }

  // ---------------------------------------------------------------------
  // Loading the trie
  // ---------------------------------------------------------------------

  /** The app-private directory of a package on a volume, "Android/data/<package>" below its path. */
  function PrivatePath(store: Store, package: string): Path {
    ResolveText(store.path, "Android/data/" + package)
  }

  /** The trie after marking the private directory of each volume, in the order given. */
  function PrivateGrants(nodes: Nodes, order: seq<Store>, package: string): (m: Nodes)
    requires [] in nodes
    ensures nodes.Keys <= m.Keys
  {
    if order == [] then nodes
    else
      var last := order[|order| - 1];
      Granted(PrivateGrants(nodes, order[..|order| - 1], package), PrivatePath(last, package), last, Unprotect)
  }

  /** The trie after filing one persisted permission, where its tree URI leads. */
  function FileGrant(nodes: Nodes, stores: map<string, Store>, permission: UriPermission): (m: Nodes)
    requires [] in nodes
    ensures nodes.Keys <= m.Keys
  {
    match PersistedPath(stores, permission)
    case None => nodes
    case Some((store, path)) => Granted(nodes, path, store, Permit(permission))
  }

  /** The trie after filing each persisted permission whose tree URI names a known volume. */
  function PermissionGrants(nodes: Nodes, stores: map<string, Store>, persisted: seq<UriPermission>): (m: Nodes)
    requires [] in nodes
    ensures nodes.Keys <= m.Keys
  {
    if persisted == [] then nodes
    else FileGrant(PermissionGrants(nodes, stores, persisted[..|persisted| - 1]), stores, persisted[|persisted| - 1])
  }

  /** `loadUriPermissions`: the private directories first, then the persisted permissions. */
  function Loaded(stores: map<string, Store>, order: seq<Store>, package: string, persisted: seq<UriPermission>): Nodes {
    PermissionGrants(PrivateGrants(map[[] := RootEntry], order, package), stores, persisted)
  }

  lemma {:induction false} PrivateGrantsWellFormed(nodes: Nodes, order: seq<Store>, package: string)
    requires WellFormed(nodes)
    ensures WellFormed(PrivateGrants(nodes, order, package))
  {
    if order != [] {
      var last := order[|order| - 1];
      PrivateGrantsWellFormed(nodes, order[..|order| - 1], package);
      GrantedWellFormed(PrivateGrants(nodes, order[..|order| - 1], package), PrivatePath(last, package), last, Unprotect);
    }
  }

  lemma {:induction false} PermissionGrantsWellFormed(nodes: Nodes, stores: map<string, Store>, persisted: seq<UriPermission>)
    requires WellFormed(nodes)
    ensures WellFormed(PermissionGrants(nodes, stores, persisted))
  {
    if persisted != [] {
      var prev := PermissionGrants(nodes, stores, persisted[..|persisted| - 1]);
      var permission := persisted[|persisted| - 1];
      PermissionGrantsWellFormed(nodes, stores, persisted[..|persisted| - 1]);
      match PersistedPath(stores, permission)
      case None =>
      case Some((store, path)) => GrantedWellFormed(prev, path, store, Permit(permission));
    }
  }

  /** The loaded trie is well formed. */
  lemma LoadedWellFormed(stores: map<string, Store>, order: seq<Store>, package: string, persisted: seq<UriPermission>)
    ensures WellFormed(Loaded(stores, order, package, persisted))
  {
    PrivateGrantsWellFormed(map[[] := RootEntry], order, package);
    PermissionGrantsWellFormed(PrivateGrants(map[[] := RootEntry], order, package), stores, persisted);
  }

  lemma {:induction false} PrivateGrantsKeepUnprotected(nodes: Nodes, order: seq<Store>, package: string, k: seq<string>)
    requires [] in nodes && k in nodes && nodes[k].unprotected
    ensures k in PrivateGrants(nodes, order, package) && PrivateGrants(nodes, order, package)[k].unprotected
  {
    if order != [] {
      var last := order[|order| - 1];
      PrivateGrantsKeepUnprotected(nodes, order[..|order| - 1], package, k);
      GrantedKeepsUnprotected(PrivateGrants(nodes, order[..|order| - 1], package), PrivatePath(last, package), last, Unprotect, k);
    }
  }

  lemma {:induction false} PermissionGrantsKeepUnprotected(nodes: Nodes, stores: map<string, Store>, persisted: seq<UriPermission>, k: seq<string>)
    requires [] in nodes && k in nodes && nodes[k].unprotected
    ensures k in PermissionGrants(nodes, stores, persisted) && PermissionGrants(nodes, stores, persisted)[k].unprotected
  {
    if persisted != [] {
      var prev := PermissionGrants(nodes, stores, persisted[..|persisted| - 1]);
      var permission := persisted[|persisted| - 1];
      PermissionGrantsKeepUnprotected(nodes, stores, persisted[..|persisted| - 1], k);
      match PersistedPath(stores, permission)
      case None =>
      case Some((store, path)) => GrantedKeepsUnprotected(prev, path, store, Permit(permission), k);
    }
  }

  /** Every volume's private directory ends up marked app-private. */
  lemma {:induction false} PrivateGrantsMark(nodes: Nodes, order: seq<Store>, package: string, j: nat)
    requires [] in nodes && j < |order| && PrivatePath(order[j], package).names != []
    ensures var k := PrivatePath(order[j], package).names;
      k in PrivateGrants(nodes, order, package) && PrivateGrants(nodes, order, package)[k].unprotected
  {
    var k := PrivatePath(order[j], package).names;
    var last := order[|order| - 1];
    var prev := PrivateGrants(nodes, order[..|order| - 1], package);
    if j == |order| - 1 {
      DescendedLast(prev, PrivatePath(last, package), last, Unprotect);
    } else {
      PrivateGrantsMark(nodes, order[..|order| - 1], package, j);
      GrantedKeepsUnprotected(prev, PrivatePath(last, package), last, Unprotect, k);
    }
  }

  /**
   * Whatever the persisted permissions, no path at or below an app-private
   * directory of a volume has a document URI.
   */
  lemma PrivateDirectoriesHidden(stores: map<string, Store>, order: seq<Store>, package: string,
                                 persisted: seq<UriPermission>, volume: Store, path: Path)
    requires volume in order && PrivatePath(volume, package).names != []
    requires path.absolute && StartsWith(path, PrivatePath(volume, package))
    ensures WellFormed(Loaded(stores, order, package, persisted))
    ensures DocumentUriOf(Loaded(stores, order, package, persisted), path) == Success(None)
  {
    LoadedWellFormed(stores, order, package, persisted);
    var dir := PrivatePath(volume, package);
    var j :| 0 <= j < |order| && order[j] == volume;
    var root: Nodes := map[[] := RootEntry];
    PrivateGrantsMark(root, order, package, j);
    PermissionGrantsKeepUnprotected(PrivateGrants(root, order, package), stores, persisted, dir.names);
    var n := |dir.names|;
    assert path.names[..n] == dir.names;
    assert UnprotectedWithin(Loaded(stores, order, package, persisted), path.names, |path.names|);
  }

  /**
   * `loadUriPermissions`: a new trie holding the private directories of the
   * volumes of `stores`, taken in an order the table does not specify, then
   * the persisted permissions in the order given.
   */
  method LoadUriPermissions(stores: map<string, Store>, package: string, persisted: seq<UriPermission>)
    returns (t: PermissionTrie, ghost order: seq<Store>)
    ensures fresh(t) && t.Valid()
    ensures forall s :: s in order <==> s in stores.Values
    ensures t.nodes == Loaded(stores, order, package, persisted)
  {
    t := new PermissionTrie();
    order := t.GrantPrivateDirectories(stores, package);
    t.GrantPersisted(stores, persisted);
  }

  // ---------------------------------------------------------------------
  // The file system's caches
  // ---------------------------------------------------------------------

  /**
   * The state of an `AndroidFileSystem` that these operations touch: the
   * table of document volumes and the permission trie, each loaded on
   * first use and dropped when permissions or the mounted media change.
   * The volumes, the package name and the persisted permissions come from
   * the platform and are passed in.
   */
  class AndroidFileSystem {
    var documentStores: Option<map<string, Store>>
    var permissions: Option<PermissionTrie>

    ghost predicate Valid()
      reads this, if permissions.Some? then {permissions.value} else {}
    {
      permissions.Some? ==> permissions.value.Valid()
    }

    constructor ()
      ensures documentStores.None? && permissions.None? && Valid()
    {
      documentStores := None;
      permissions := None;
    }

    /** `takePersistableUriPermission`: the flag check, then the trie is dropped. */
    method TakePersistableUriPermission(uri: Uri, flags: bv32) returns (r: Result<bv32, FsError>)
      requires Valid()
      modifies this
      ensures r == PersistableFlags(uri, flags)
      ensures permissions == if r.Success? then None else old(permissions)
      ensures documentStores == old(documentStores) && Valid()
    {
      r := PersistableFlags(uri, flags);
      if r.Success? {
        permissions := None;
      }
    }

    /** `releasePersistableUriPermission`: the same check, then the trie is dropped. */
    method ReleasePersistableUriPermission(uri: Uri, flags: bv32) returns (r: Result<bv32, FsError>)
      requires Valid()
      modifies this
      ensures r == PersistableFlags(uri, flags)
      ensures permissions == if r.Success? then None else old(permissions)
      ensures documentStores == old(documentStores) && Valid()
    {
      r := PersistableFlags(uri, flags);
      if r.Success? {
        permissions := None;
      }
    }

    /** Releasing with all three flags: refused only for a URI that is not a tree URI. */
    method ReleaseAllPersistableUriPermission(uri: Uri) returns (r: Result<bv32, FsError>)
      requires Valid()
      modifies this
      ensures r.Success? <==> IsTreeUri(uri)
      ensures r.Success? ==> r.value == FLAG_READ_WRITE && permissions.None?
      ensures r.Failure? ==> r.error == NotDocumentUri && permissions == old(permissions)
      ensures documentStores == old(documentStores) && Valid()
    {
      r := ReleasePersistableUriPermission(uri, FLAG_PERSISTABLE_READ_WRITE);
    }

    /** `getAndroidFileStores`: the volumes, with the table rebuilt from them and the trie dropped. */
    method GetAndroidFileStores(volumes: seq<Store>) returns (stores: seq<Store>)
      modifies this
      ensures stores == volumes
      ensures documentStores == Some(DocumentStores(volumes)) && permissions.None? && Valid()
    {
      var m := ToMap(volumes);
      documentStores := Some(m);
      permissions := None;
      stores := volumes;
    }

    /** `getDocumentFileStores`: the cached table, or one built from the volumes and cached. */
    method GetDocumentFileStores(volumes: seq<Store>) returns (m: map<string, Store>)
      requires Valid()
      modifies this
      ensures old(documentStores).Some? ==> m == old(documentStores).value
      ensures old(documentStores).None? ==> m == DocumentStores(volumes)
      ensures documentStores == Some(m) && permissions == old(permissions) && Valid()
    {
      if documentStores.Some? {
        return documentStores.value;
      }
      m := ToMap(volumes);
      documentStores := Some(m);
    }

    /** `getPermissionRoot`: the cached trie, or one loaded from the table and cached. */
    method GetPermissionRoot(volumes: seq<Store>, package: string, persisted: seq<UriPermission>)
      returns (t: PermissionTrie, ghost order: seq<Store>)
      requires Valid()
      modifies this
      ensures Valid() && permissions == Some(t)
      ensures old(permissions).Some? ==> t == old(permissions).value && documentStores == old(documentStores)
      ensures old(permissions).None? ==>
        && fresh(t) && documentStores.Some?
        && documentStores.value == (if old(documentStores).Some? then old(documentStores).value else DocumentStores(volumes))
        && (forall s :: s in order <==> s in documentStores.value.Values)
        && t.nodes == Loaded(documentStores.value, order, package, persisted)
    {
      if permissions.Some? {
        t := permissions.value;
        order := [];
        return;
      }
      var stores := GetDocumentFileStores(volumes);
      t, order := LoadUriPermissions(stores, package, persisted);
      permissions := Some(t);
    }

    /** `getPath(Uri)` against the table of document volumes. */
    method GetPathOfUri(volumes: seq<Store>, uri: Uri) returns (r: Result<Path, FsError>)
      requires Valid()
      modifies this
      ensures documentStores.Some? && r == GetPath(documentStores.value, uri)
      ensures old(documentStores).Some? ==> documentStores == old(documentStores)
      ensures old(documentStores).None? ==> documentStores == Some(DocumentStores(volumes))
      ensures permissions == old(permissions) && Valid()
    {
      var stores := GetDocumentFileStores(volumes);
      r := GetPath(stores, uri);
    }

    /**
     * `getTreeDocumentUri`: a relative path is refused before anything is
     * loaded; otherwise the lookup runs on the (possibly just loaded) trie.
     */
    method GetTreeDocumentUri(volumes: seq<Store>, package: string, persisted: seq<UriPermission>, path: Path)
      returns (r: Result<Option<Uri>, FsError>, ghost order: seq<Store>)
      requires Valid()
      modifies this
      ensures Valid()
      ensures !path.absolute ==>
        r == Failure(FsError.IllegalArgument) && documentStores == old(documentStores) && permissions == old(permissions)
      ensures path.absolute ==> permissions.Some? && r == DocumentUriOf(permissions.value.nodes, path)
      ensures path.absolute && old(permissions).Some? ==>
        permissions == old(permissions) && documentStores == old(documentStores)
      ensures path.absolute && old(permissions).None? ==>
        && documentStores.Some?
        && documentStores.value == (if old(documentStores).Some? then old(documentStores).value else DocumentStores(volumes))
        && (forall s :: s in order <==> s in documentStores.value.Values)
        && permissions.value.nodes == Loaded(documentStores.value, order, package, persisted)
    {
      if !path.absolute {
        return Failure(FsError.IllegalArgument), [];
      }
      var t;
      t, order := GetPermissionRoot(volumes, package, persisted);
      r := t.TreeDocumentUri(path);
    }

    /** The media receiver: both caches are dropped when storage is mounted or removed. */
    method MediaChanged()
      modifies this
      ensures documentStores.None? && permissions.None? && Valid()
    {
      documentStores := None;
      permissions := None;
    }
  }
}
