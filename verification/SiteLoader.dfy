/** BuckStream's site loader: a double-checked load under one mutex, on top of the LRU cache, racing
    with deployments, deletions, idle expiry and capacity eviction. */
module SiteLoader {
  import opened Prelude
  import opened LruModel
  import LruCache

  type Bytes = seq<bv8>

  /** One archive entry; `content` is None when the entry cannot be read. */
  datatype ArchiveEntry = ArchiveEntry(name: string, isDir: bool, content: Option<Bytes>)

  /** An object in the bucket, as the zip reader sees it. */
  datatype Object = Corrupt | Zip(entries: seq<ArchiveEntry>)

  datatype CachedFile = CachedFile(content: Bytes, contentType: string, etag: string)

  type Site = map<string, CachedFile>

  /** The MIME table ("" when the extension is unknown) and the content hash. */
  datatype Lib = Lib(mimeByName: string -> string, hash: Bytes -> string)

  const IDLE_TTL := 3600

  // ---------------------------------------------------------------------------
  // Object keys
  // ---------------------------------------------------------------------------

  const SITES := "sites/"

  const ZIP := ".zip"

  predicate HasPrefix(s: string, p: string) { |s| >= |p| && s[..|p|] == p }

  predicate HasSuffix(s: string, p: string) { |s| >= |p| && s[|s| - |p|..] == p }

  function TrimPrefix(s: string, p: string): string { if HasPrefix(s, p) then s[|p|..] else s }

  function TrimSuffix(s: string, p: string): string { if HasSuffix(s, p) then s[..|s| - |p|] else s }

  function SiteKey(name: string): string { SITES + name + ZIP }

  /** What HandleDeleteObject lets through under `sites/`, and the cache entry it clears. */
  predicate Deletable(key: string) { key != "" && HasPrefix(key, SITES) && HasSuffix(key, ZIP) }

  function SiteName(key: string): string { TrimSuffix(TrimPrefix(key, SITES), ZIP) }

  /** The prefix and the suffix of a deletable key do not overlap. */
  lemma LongKey(key: string)
    requires Deletable(key)
    ensures |key| >= |SITES| + |ZIP|
  {
    assert key[|key| - 4] == key[|key| - 4..][0] == '.';
    forall i | 0 <= i < 6 ensures key[i] != '.' {
      assert key[i] == key[..6][i] == SITES[i];
    }
  }

  /** Deploy and delete name the same cache entry for the same object: the two key functions are inverse. */
  lemma KeysRoundTrip(name: string, key: string)
    ensures SiteKey(name) == "sites/" + name + ".zip"
    ensures Deletable(SiteKey(name)) && SiteName(SiteKey(name)) == name
    ensures Deletable(key) ==> SiteKey(SiteName(key)) == key
  {
    var k := SiteKey(name);
    assert k[..6] == SITES && k[6..] == name + ZIP && k[|k| - 4..] == ZIP;
    assert (name + ZIP)[|name|..] == ZIP && (name + ZIP)[..|name|] == name;
    if Deletable(key) {
      LongKey(key);
      var rest := key[6..];
      assert rest[|rest| - 4..] == key[|key| - 4..] == ZIP;
      assert key == key[..6] + (rest[..|rest| - 4] + rest[|rest| - 4..]);
    }
  }

  // ---------------------------------------------------------------------------
  // The archive fold
  // ---------------------------------------------------------------------------

  function Render(lib: Lib, name: string, content: Bytes): CachedFile {
    var mime := lib.mimeByName(name);
    CachedFile(content, if mime == "" then "application/octet-stream" else mime, "\"" + lib.hash(content) + "\"")
  }

  function Path(e: ArchiveEntry): string { TrimPrefix(e.name, "/") }

  /** A file is served under its name in the archive, or under what follows one leading slash. */
  lemma PathIsName(e: ArchiveEntry, path: string)
    ensures Path(e) == path <==>
      e.name == "/" + path || (e.name == path && (path == "" || path[0] != '/'))
  {
    if HasPrefix(e.name, "/") {
      assert e.name == e.name[..1] + e.name[1..] && e.name[..1][0] == e.name[0];
    } else if e.name != "" {
      assert e.name[..1] == [e.name[0]];
    }
    assert ("/" + path)[..1] == "/" && ("/" + path)[1..] == path;
  }

  method BuildSite(lib: Lib, entries: seq<ArchiveEntry>) returns (r: Option<Site>)
    ensures r == Build(lib, entries)
  {
    var site: Site := map[];
    for i := 0 to |entries|
      invariant Build(lib, entries[..i]) == Some(site)
    {
      var file := entries[i];
      assert entries[..i + 1][..i] == entries[..i];
      if file.isDir {
        continue;
      }
      if file.content.None? {
        Unreadable(lib, entries, i);
        return None;
      }
      site := site[Path(file) := Render(lib, file.name, file.content.value)];
    }
    assert entries[..|entries|] == entries;
    return Some(site);
  }

  function Build(lib: Lib, entries: seq<ArchiveEntry>): Option<Site> {
    if entries == [] then Some(map[])
    else
      var n := |entries| - 1;
      var e := entries[n];
      match Build(lib, entries[..n])
      case None => None
      case Some(site) =>
        if e.isDir then Some(site)
        else if e.content.None? then None
        else Some(site[Path(e) := Render(lib, e.name, e.content.value)])
  }

  /** The last file of the archive with this path. */
  function LastFile(entries: seq<ArchiveEntry>, path: string): (r: Option<nat>)
    ensures r.Some? ==>
      && r.value < |entries| && !entries[r.value].isDir && Path(entries[r.value]) == path
      && forall j :: r.value < j < |entries| && !entries[j].isDir ==> Path(entries[j]) != path
    ensures r.None? ==> forall j :: 0 <= j < |entries| && !entries[j].isDir ==> Path(entries[j]) != path
  {
    if entries == [] then None
    else
      var n := |entries| - 1;
      if !entries[n].isDir && Path(entries[n]) == path then Some(n)
      else
        assert forall j :: 0 <= j < n ==> entries[j] == entries[..n][j];
        LastFile(entries[..n], path)
  }

  lemma {:induction false} Unreadable(lib: Lib, entries: seq<ArchiveEntry>, i: nat)
    requires i < |entries| && !entries[i].isDir && entries[i].content.None?
    ensures Build(lib, entries).None?
  {
    var n := |entries| - 1;
    if i < n {
      Unreadable(lib, entries[..n], i);
    }
  }

  /** A site is built exactly when every file can be read; it has exactly the paths of the archive's
      files, each with the content of the last entry with that path, the type its name has in the MIME table, or
      else plain bytes, and the quoted hash of the content for an etag. */
  lemma {:induction false} LastEntryWins(lib: Lib, entries: seq<ArchiveEntry>, path: string)
    ensures var r := Build(lib, entries);
      && (r.Some? <==> forall i :: 0 <= i < |entries| && !entries[i].isDir ==> entries[i].content.Some?)
      && (r.Some? ==>
            match LastFile(entries, path)
            case None => path !in r.value
            case Some(i) =>
              var mime := lib.mimeByName(entries[i].name);
              && entries[i].content.Some? && path in r.value
              && r.value[path].content == entries[i].content.value
              && r.value[path].contentType == (if mime == "" then "application/octet-stream" else mime)
              && r.value[path].etag == "\"" + lib.hash(entries[i].content.value) + "\"")
  {
    if entries != [] {
      var n := |entries| - 1;
      LastEntryWins(lib, entries[..n], path);
      assert forall i :: 0 <= i < n ==> entries[..n][i] == entries[i];
    }
  }

  function BuildObject(lib: Lib, o: Object): Option<Site> {
    match o
    case Corrupt => None
    case Zip(entries) => Build(lib, entries)
  }

  // ---------------------------------------------------------------------------
  // The handlers, one at a time, over the linked-list cache
  // ---------------------------------------------------------------------------

  datatype DeleteStatus = MissingKey | ForbiddenPrefix | ForbiddenType | StorageError | Deleted

  class Handler {
    const lib: Lib
    const cache: LruCache.Cache<Site>
    var bucket: map<string, Object>

    constructor (lib: Lib, capacity: int, ghost now: int)
      ensures this.lib == lib && bucket == map[]
      ensures cache.Valid() && cache.capacity == capacity && cache.contents == [] && cache.clock == now
      ensures fresh(cache) && fresh(cache.repr)
    {
      this.lib, bucket := lib, map[];
      cache := new LruCache.Cache(capacity, now);
    }

    /** One load, undisturbed: the two looks at `t1` and `t2`, the store at `t3`. */
    method LoadSiteCache(siteName: string, t1: int, t2: int, t3: int, downloadOk: bool) returns (r: Option<Site>)
      requires cache.Valid() && cache.clock <= t1 <= t2 <= t3
      modifies cache, cache.repr
      ensures cache.Valid() && fresh(cache.repr - old(cache.repr))
      ensures var was := old(cache.contents);
        var found := downloadOk && SiteKey(siteName) in bucket;
        var built := if found then BuildObject(lib, bucket[SiteKey(siteName)]) else None;
        if Has(was, siteName) then
          r == Lookup(was, siteName) && cache.contents == AfterGet(was, siteName, t1)
        else
          r == built &&
          cache.contents == if built.None? then was else AfterPut(cache.capacity, was, siteName, built.value, t3)
    {
      hide Filter, Build, LruCache.Shows, LruCache.Indexed, LruModel.Inv;
      var hit := cache.Get(siteName, t1);
      if hit.Some? {
        return hit;
      }
      hit := cache.Get(siteName, t2);
      if hit.Some? {
        return hit;
      }
      if !downloadOk || SiteKey(siteName) !in bucket {
        return None;
      }
      match bucket[SiteKey(siteName)]
      case Corrupt => return None;
      case Zip(entries) =>
        var site := BuildSite(lib, entries);
        if site.None? {
          return None;
        }
        cache.Put(siteName, site.value, t3);
        return site;
    }

    method ClearSiteCache(siteName: string)
      requires cache.Valid()
      modifies cache, cache.repr
      ensures cache.Valid() && cache.repr == old(cache.repr)
      ensures cache.contents == Without(old(cache.contents), siteName)
    {
      cache.Delete(siteName);
    }

    /** The storage part of HandleDeploy: upload, then invalidate; a failed upload touches nothing. */
    method Deploy(siteName: string, zip: Object, uploadOk: bool) returns (ok: bool)
      requires cache.Valid()
      modifies this, cache, cache.repr
      ensures cache.Valid() && ok == (siteName != "" && uploadOk)
      ensures bucket == if ok then old(bucket)[SiteKey(siteName) := zip] else old(bucket)
      ensures cache.contents == if ok then Without(old(cache.contents), siteName) else old(cache.contents)
    {
      if siteName == "" || !uploadOk {
        return false;
      }
      bucket := bucket[SiteKey(siteName) := zip];
      ClearSiteCache(siteName);
      return true;
    }

    method DeleteObject(prefix: string, key: string, deleteOk: bool) returns (r: DeleteStatus)
      requires cache.Valid()
      modifies this, cache, cache.repr
      ensures cache.Valid()
      ensures r == Deleted <==> deleteOk && key != "" && HasPrefix(key, prefix) && (prefix == SITES ==> Deletable(key))
      ensures bucket == if r == Deleted then old(bucket) - {key} else old(bucket)
      ensures cache.contents ==
        if r == Deleted && prefix == SITES then Without(old(cache.contents), SiteName(key)) else old(cache.contents)
    {
      hide Filter, SiteName, LruCache.Shows, LruCache.Indexed, LruModel.Inv;
      if key == "" {
        return MissingKey;
      }
      if !HasPrefix(key, prefix) {
        return ForbiddenPrefix;
      }
      if prefix == SITES && !HasSuffix(key, ZIP) {
        return ForbiddenType;
      }
      if !deleteOk {
        return StorageError;
      }
      bucket := bucket - {key};
      if prefix == SITES {
        ClearSiteCache(SiteName(key));
      }
      return Deleted;
    }
  }
}
