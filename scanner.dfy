/**
 The scanner object of DuplicateImageCheck: the cache file it reads and
 rewrites, the status notifications it raises, and `Process`, which
 reconciles one folder's cached hashes with the folder's listing and then
 compares every pair of images.

 The file system is an input: whether the folder exists and the full paths
 it lists. The cache file is the field `cacheFile` (None while no file
 exists), every read and write of it is logged in `ioLog`, and every status
 notification is appended to `status`. The perceptual hash and the
 similarity score come from a foreign library and are parameters.
 */
module Scanner {
  import opened Seqs
  import opened Text
  import opened FolderHashes
  import opened Matching

  datatype Option<T> = None | Some(value: T)

  /** The content of the cache file: folder path to that folder's dictionary. */
  type Snapshot = map<string, seq<Entry>>

  /** One access to the cache file. */
  datatype CacheAccess = Load | Write(snapshot: Snapshot)

  /** Every folder's dictionary has distinct keys. */
  predicate WellFormed(s: Snapshot)
  {
    forall k :: k in s ==> DistinctNames(s[k])
  }

  /** What `ReadCacheFile` yields: an empty cache when no file exists. */
  function Stored(file: Option<Snapshot>): Snapshot
  {
    if file.Some? then file.value else map[]
  }

  /** The folder's dictionary before the scan: a fresh, empty one for a
      folder the cache has never seen. */
  function EntryFor(s: Snapshot, folder: string): seq<Entry>
  {
    if folder in s then s[folder] else []
  }

  /** The number of images a scan of `listing` hashes. */
  function HashCount(entry: seq<Entry>, listing: seq<string>): nat
  {
    var files := SupportedFiles(listing);
    |FilesToProcess(files, RemoveMissing(entry, files))|
  }

  /** A status notification, raised through `OnStatusChanged`. */
  datatype Notice = CacheLoaded | Processing(count: nat, total: nat) | ComparingImages | Done

  /** The text a notification carries. */
  function Message(n: Notice): string
  {
    match n
    case CacheLoaded => "Cache loaded"
    case Processing(count, total) => "Processing " + PaddedCount(count) + " of " + PaddedCount(total)
    case ComparingImages => "Comparing images"
    case Done => "Done"
  }

  /** Below ten thousand, both counters of a progress message are exactly
      four zero-padded digits: "Processing 0007 of 0042". */
  lemma ProgressText(count: nat, total: nat)
    requires count < 10000 && total < 10000
    ensures var text := Message(Processing(count, total));
      && |text| == 23
      && text[..11] == "Processing " && text[15..19] == " of "
      && AllDigits(text[11..15]) && DecimalValue(text[11..15]) == count
      && AllDigits(text[19..]) && DecimalValue(text[19..]) == total
  {
    PaddedCountWidth(count);
    PaddedCountWidth(total);
    ConcatParts("Processing ", PaddedCount(count), " of ", PaddedCount(total));
  }

  /** The progress notifications for the first `count` images hashed, the
      k-th reporting k of `total`. */
  function ProgressTrace(count: nat, total: nat): seq<Notice>
  {
    seq(count, k requires 0 <= k < count => Processing(k + 1, total))
  }

  /** Every notification of a scan of an existing folder that hashes `n`
      images. */
  function ScanTrace(n: nat): seq<Notice>
  {
    [CacheLoaded] + ProgressTrace(n, n) + [ComparingImages, Done]
  }

  /** A scan that hashes `n` images reports "Cache loaded", then one counter
      per image from 1 to `n`, each against the total `n`, then "Comparing
      images" and finally "Done". */
  lemma ScanTraceShape(n: nat)
    ensures |ScanTrace(n)| == n + 3
    ensures ScanTrace(n)[0] == CacheLoaded
    ensures forall k :: 1 <= k <= n ==> ScanTrace(n)[k] == Processing(k, n)
    ensures ScanTrace(n)[n + 1] == ComparingImages && ScanTrace(n)[n + 2] == Done
  {
  }

  /** The cache entry of one folder (`CacheFolder`). */
  class CacheFolder {
    var imageHashes: seq<Entry>

    constructor ()
      ensures imageHashes == []
    {
      imageHashes := [];
    }

    /** `imageHashes.Add(key, value)`; the dictionary throws on a key it
        already holds, so callers must not pass one. */
    method Add(key: string, value: ulong)
      requires key !in Names(imageHashes)
      modifies this
      ensures imageHashes == old(imageHashes) + [Entry(key, value)]
    {
      imageHashes := imageHashes + [Entry(key, value)];
    }
  }

  /** The whole cache in memory (`CacheFile`). `contents` is what the
      cache holds, `Repr` the folder entry objects it owns. */
  class CacheFile {
    var folders: map<string, CacheFolder>
    ghost var contents: Snapshot
    ghost var Repr: set<CacheFolder>

    constructor ()
      ensures Valid() && folders == map[] && contents == map[] && Repr == {}
    {
      folders := map[];
      contents := map[];
      Repr := {};
    }

    /** Each folder has its own entry object, one of `Repr`. */
    ghost predicate Owned()
      reads this`folders, this`Repr
    {
      && (forall k :: k in folders ==> folders[k] in Repr)
      && (forall a, b :: a in folders && b in folders && a != b ==> folders[a] != folders[b])
    }

    /** Each folder has its own entry object, the entries hold `contents`,
        and each entry is a dictionary. */
    ghost predicate Valid()
      reads this, Repr
    {
      && Owned()
      && folders.Keys == contents.Keys
      && (forall k :: k in folders && folders[k] in Repr ==> folders[k].imageHashes == contents[k])
      && WellFormed(contents)
    }

    /** Deserialization of a cache file: one fresh entry object per folder. */
    constructor Deserialize(persisted: Snapshot)
      requires WellFormed(persisted)
      ensures Valid() && fresh(Repr) && contents == persisted
    {
      folders := map[];
      contents := map[];
      Repr := {};
      new;
      var pending := persisted.Keys;
      while pending != {}
        invariant pending <= persisted.Keys
        invariant Valid()
        invariant fresh(Repr)
        invariant contents == persisted - pending
        decreases pending
      {
        var k :| k in pending;
        var _ := AddNew(k, persisted[k]);
        pending := pending - {k};
      }
      assert persisted - pending == persisted;
    }

    /** `folders.Add(key, entry)` for an entry object the cache does not own
        yet; the dictionary throws on a key it already holds. */
    method Add(key: string, entry: CacheFolder)
      requires Valid() && key !in folders && entry !in Repr
      requires DistinctNames(entry.imageHashes)
      modifies this
      ensures Valid()
      ensures folders == old(folders)[key := entry]
      ensures contents == old(contents)[key := entry.imageHashes]
      ensures Repr == old(Repr) + {entry}
    {
      WellFormedUpdate(contents, key, entry.imageHashes);
      folders := folders[key := entry];
      contents := contents[key := entry.imageHashes];
      Repr := Repr + {entry};
    }

    /** `Valid()`, except that the entry object of `key` may have changed. */
    ghost predicate ValidExcept(key: string)
      reads this, Repr
    {
      && Owned()
      && folders.Keys == contents.Keys
      && (forall k :: k in folders && k != key && folders[k] in Repr ==> folders[k].imageHashes == contents[k])
      && WellFormed(contents)
    }

    /** Records in `contents` what the entry object of `key` now holds. */
    ghost method Resync(key: string)
      requires ValidExcept(key) && key in folders && DistinctNames(folders[key].imageHashes)
      modifies this`contents
      ensures Valid() && contents == old(contents)[key := folders[key].imageHashes]
    {
      WellFormedUpdate(contents, key, folders[key].imageHashes);
      contents := contents[key := folders[key].imageHashes];
    }

    /** A fresh entry object holding `hashes`, added under `key`. */
    method AddNew(key: string, hashes: seq<Entry>) returns (entry: CacheFolder)
      requires Valid() && key !in folders && DistinctNames(hashes)
      modifies this
      ensures Valid() && fresh(entry) && entry.imageHashes == hashes
      ensures folders == old(folders)[key := entry]
      ensures contents == old(contents)[key := hashes]
      ensures Repr == old(Repr) + {entry}
    {
      entry := new CacheFolder();
      entry.imageHashes := hashes;
      Add(key, entry);
    }

    /** What serializing the cache writes. */
    function Snapshot(): (s: Snapshot)
      requires Valid()
      reads this, Repr
      ensures s == contents
    {
      map k | k in folders :: folders[k].imageHashes
    }
  }

  class ImageScanner {
    var cacheFile: Option<Snapshot>
    var ioLog: seq<CacheAccess>
    var status: seq<Notice>

    ghost predicate Valid()
      reads this`cacheFile
    {
      cacheFile.Some? ==> WellFormed(cacheFile.value)
    }

    /** A scanner over a cache file with the given content. */
    constructor (onDisk: Option<Snapshot>)
      requires onDisk.Some? ==> WellFormed(onDisk.value)
      ensures Valid() && cacheFile == onDisk && ioLog == [] && status == []
    {
      cacheFile := onDisk;
      ioLog := [];
      status := [];
    }

    /** Loads the cache: an empty one when there is no file, otherwise the
        file's content with one fresh entry object per folder. */
    method ReadCacheFile() returns (cache: CacheFile)
      requires Valid()
      modifies this`ioLog
      ensures ioLog == old(ioLog) + [Load]
      ensures fresh(cache) && fresh(cache.Repr)
      ensures cache.Valid() && cache.contents == Stored(cacheFile)
    {
      ioLog := ioLog + [Load];
      if cacheFile.None? {
        cache := new CacheFile();
      } else {
        cache := new CacheFile.Deserialize(cacheFile.value);
      }
    }

    /** Writes the whole cache, every folder included, over the file. */
    method SaveCacheFile(cache: CacheFile)
      requires cache.Valid()
      modifies this`cacheFile, this`ioLog
      ensures cacheFile == Some(cache.contents)
      ensures ioLog == old(ioLog) + [Write(cache.contents)]
      ensures Valid()
    {
      cacheFile := Some(cache.Snapshot());
      ioLog := ioLog + [Write(cache.Snapshot())];
    }

    /** The addition loop: hash each file in order, add it under its bare
        name and report the count. */
    method HashNewFiles(target: CacheFolder, filesToProcess: seq<string>, hash: string -> ulong)
      requires DistinctFileNames(filesToProcess)
      requires forall f :: f in filesToProcess ==> FileName(f) !in Names(target.imageHashes)
      modifies this`status, target
      ensures target.imageHashes == old(target.imageHashes) + NewEntries(filesToProcess, hash)
      ensures status == old(status) + ProgressTrace(|filesToProcess|, |filesToProcess|)
    {
      ghost var base := target.imageHashes;
      ghost var notices := status;
      var n := |filesToProcess|;
      var i := 0;
      while i < n
        invariant 0 <= i <= n
        invariant target.imageHashes == base + NewEntries(filesToProcess[..i], hash)
        invariant status == notices + ProgressTrace(i, n)
      {
        NextKeyIsNew(base, filesToProcess, i, hash);
        HashStep(base, filesToProcess, i, hash);
        ProgressStep(notices, i, n);
        HashOne(target, filesToProcess[i], hash, i + 1, n);
        i := i + 1;
      }
      assert filesToProcess[..i] == filesToProcess;
    }

    /** One round of the addition loop: hash the file, add it under its
        bare name and report `count` of `total`. */
    method HashOne(target: CacheFolder, path: string, hash: string -> ulong, count: nat, total: nat)
      requires FileName(path) !in Names(target.imageHashes)
      modifies this`status, target
      ensures target.imageHashes == old(target.imageHashes) + [Entry(FileName(path), hash(path))]
      ensures status == old(status) + [Processing(count, total)]
    {
      var hashcode := hash(path);
      target.Add(FileName(path), hashcode);
      status := status + [Processing(count, total)];
    }

    /** Finds the folder's entry in the loaded cache, adding a fresh, empty
        one for a folder the cache does not hold yet. */
    method FindFolder(cache: CacheFile, folder: string) returns (target: CacheFolder)
      requires cache.Valid()
      modifies cache
      ensures cache.Valid()
      ensures folder in cache.folders && cache.folders[folder] == target
      ensures target.imageHashes == EntryFor(old(cache.contents), folder)
      ensures cache.contents == old(cache.contents)[folder := target.imageHashes]
      ensures cache.Repr == old(cache.Repr) + {target}
      ensures folder in old(cache.folders) ==> target in old(cache.Repr)
      ensures folder !in old(cache.folders) ==> fresh(target)
    {
      if folder in cache.folders {
        target := cache.folders[folder];
        assert cache.contents == cache.contents[folder := target.imageHashes];
      } else {
        target := cache.AddNew(folder, []);
      }
    }

    /** Brings the folder's entry up to date with the listing: keeps the
        supported files only, drops the entries whose name is no listed file's name,
        then hashes every remaining file whose name is not a key. Answers
        whether the cache must be saved. */
    method UpdateFolder(target: CacheFolder, listing: seq<string>, hash: string -> ulong)
      returns (saveCache: bool)
      requires DistinctNames(target.imageHashes) && DistinctFileNames(listing)
      modifies this`status, target
      ensures DistinctNames(target.imageHashes)
      ensures target.imageHashes == Reconciled(old(target.imageHashes), listing, hash)
      ensures saveCache == NeedsSave(old(target.imageHashes), listing)
      ensures status == old(status) + ProgressTrace(HashCount(old(target.imageHashes), listing),
                                                    HashCount(old(target.imageHashes), listing))
    {
      ghost var entry := target.imageHashes;
      var allFiles := SupportedFiles(listing);
      saveCache := false;
      var oldCacheSize := |target.imageHashes|;

      target.imageHashes := RemoveMissing(target.imageHashes, allFiles);
      if |target.imageHashes| != oldCacheSize {
        saveCache := true;
      }

      var filesToProcess := FilesToProcess(allFiles, target.imageHashes);
      FilesToProcessDistinct(listing, target.imageHashes);
      if |filesToProcess| > 0 {
        HashNewFiles(target, filesToProcess, hash);
        saveCache := true;
      } else {
        assert NewEntries(filesToProcess, hash) == [];
      }
      ReconciledDistinct(entry, listing, hash);
    }

    /** `UpdateFolder` on an entry object the cache shares: the cache's
        dictionary for `folder` becomes the updated one and no other folder
        changes. */
    method RefreshEntry(cache: CacheFile, folder: string, target: CacheFolder,
                        listing: seq<string>, hash: string -> ulong)
      returns (saveCache: bool)
      requires cache.Valid()
      requires folder in cache.folders && cache.folders[folder] == target
      requires DistinctFileNames(listing)
      modifies this`status, cache`contents, target
      ensures cache.Valid()
      ensures
        var entry := old(target.imageHashes);
        && target.imageHashes == Reconciled(entry, listing, hash)
        && cache.contents == old(cache.contents)[folder := target.imageHashes]
        && saveCache == NeedsSave(entry, listing)
        && status == old(status) + ProgressTrace(HashCount(entry, listing), HashCount(entry, listing))
    {
      assert cache.ValidExcept(folder);
      assert forall k :: k in cache.folders && k != folder ==> cache.folders[k] != target;
      saveCache := UpdateFolder(target, listing, hash);
      assert cache.ValidExcept(folder);
      cache.Resync(folder);
    }

    /** Brings the folder's entry up to date and writes the cache back when
        that changed the entry. */
    method RefreshAndSave(cache: CacheFile, folder: string, target: CacheFolder,
                          listing: seq<string>, hash: string -> ulong)
      requires Valid() && cache.Valid()
      requires folder in cache.folders && cache.folders[folder] == target
      requires DistinctFileNames(listing)
      modifies this`status, this`cacheFile, this`ioLog, cache`contents, target
      ensures Valid()
      ensures
        var entry := old(target.imageHashes);
        var saved := old(cache.contents)[folder := target.imageHashes];
        && target.imageHashes == Reconciled(entry, listing, hash)
        && DistinctNames(target.imageHashes)
        && ioLog == old(ioLog) + (if NeedsSave(entry, listing) then [Write(saved)] else [])
        && cacheFile == (if NeedsSave(entry, listing) then Some(saved) else old(cacheFile))
        && status == old(status) + ProgressTrace(HashCount(entry, listing), HashCount(entry, listing))
    {
      var saveCache := RefreshEntry(cache, folder, target, listing, hash);
      assert DistinctNames(cache.contents[folder]);
      if saveCache {
        SaveCacheFile(cache);
      }
    }

    /** Loads the cache and returns the folder's entry object, adding an
        empty one under `folder` when the cache has none. */
    method LoadFolder(folder: string) returns (cache: CacheFile, target: CacheFolder)
      requires Valid()
      modifies this`ioLog
      ensures ioLog == old(ioLog) + [Load]
      ensures fresh(cache) && fresh(target)
      ensures cache.Valid() && folder in cache.folders && cache.folders[folder] == target
      ensures target.imageHashes == EntryFor(Stored(cacheFile), folder)
      ensures cache.contents == Stored(cacheFile)[folder := target.imageHashes]
    {
      cache := ReadCacheFile();
      target := FindFolder(cache, folder);
    }

    /** The cache half of a scan of an existing folder: load the cache,
        find or add the folder's entry, report "Cache loaded", bring the
        entry up to date, and write the cache back when that changed it. */
    method LoadAndUpdate(folder: string, listing: seq<string>, hash: string -> ulong)
      returns (imageFolderHashes: CacheFolder)
      requires Valid()
      requires DistinctFileNames(listing)
      modifies this
      ensures Valid()
      ensures
        var before := Stored(old(cacheFile));
        var entry := EntryFor(before, folder);
        var after := Reconciled(entry, listing, hash);
        var saved := before[folder := after];
        && imageFolderHashes.imageHashes == after
        && DistinctNames(after)
        && ioLog == old(ioLog) + [Load] + (if NeedsSave(entry, listing) then [Write(saved)] else [])
        && cacheFile == (if NeedsSave(entry, listing) then Some(saved) else old(cacheFile))
        && status == old(status) + [CacheLoaded] + ProgressTrace(HashCount(entry, listing), HashCount(entry, listing))
    {
      ghost var before := Stored(cacheFile);
      ghost var entry := EntryFor(before, folder);
      var cache;
      cache, imageFolderHashes := LoadFolder(folder);
      status := status + [CacheLoaded];
      RefreshAndSave(cache, folder, imageFolderHashes, listing, hash);
      UpdateTwice(before, folder, entry, imageFolderHashes.imageHashes);
    }

    /** `Process(folder, threshold)`. For a missing folder: no matches, and
        the cache file is neither read nor written. Otherwise the folder's
        dictionary is reconciled with the listing, the cache is written back
        exactly when the reconciliation needed it, and the matches are those
        of the reconciled dictionary. */
    method Process(folder: string, threshold: real, folderExists: bool, listing: seq<string>,
                   hash: string -> ulong, similarity: (ulong, ulong) -> real)
      returns (result: seq<ImageMatch>)
      requires Valid()
      requires DistinctFileNames(listing)
      modifies this
      ensures Valid()
      ensures !folderExists ==> result == [] && unchanged(this)
      ensures folderExists ==>
        var before := Stored(old(cacheFile));
        var entry := EntryFor(before, folder);
        var after := Reconciled(entry, listing, hash);
        var saved := before[folder := after];
        && ioLog == old(ioLog) + [Load] + (if NeedsSave(entry, listing) then [Write(saved)] else [])
        && cacheFile == (if NeedsSave(entry, listing) then Some(saved) else old(cacheFile))
        && status == old(status) + ScanTrace(HashCount(entry, listing))
        && (forall m :: m in result ==> Recorded(after, threshold, similarity, m))
        && (Symmetric(similarity) ==> result == AllPairs(after, threshold, similarity))
    {
      result := [];
      if !folderExists {
        return;
      }

      var imageFolderHashes := LoadAndUpdate(folder, listing, hash);
      status := status + [ComparingImages];
      result := FindMatches(imageFolderHashes.imageHashes, threshold, similarity);
      status := status + [Done];
      ScanTraceParts(old(status), HashCount(EntryFor(Stored(old(cacheFile)), folder), listing));
    }
  }

  /** A second update of the same folder overrides the first. */
  lemma UpdateTwice(s: Snapshot, folder: string, first: seq<Entry>, second: seq<Entry>)
    ensures s[folder := first][folder := second] == s[folder := second]
  {
  }

  /** Replacing one folder's dictionary by another dictionary keeps the
      cache well formed. */
  lemma WellFormedUpdate(s: Snapshot, folder: string, d: seq<Entry>)
    requires WellFormed(s) && DistinctNames(d)
    ensures WellFormed(s[folder := d])
  {
  }

  /** The scan's notifications in the order `Process` raises them. */
  lemma ScanTraceParts(pre: seq<Notice>, n: nat)
    ensures pre + [CacheLoaded] + ProgressTrace(n, n) + [ComparingImages] + [Done] == pre + ScanTrace(n)
  {
  }

  /** The `i`-th file to hash is not yet a key once the files before it
      have been added. */
  lemma NextKeyIsNew(base: seq<Entry>, files: seq<string>, i: nat, hash: string -> ulong)
    requires DistinctFileNames(files) && i < |files|
    requires forall f :: f in files ==> FileName(f) !in Names(base)
    ensures FileName(files[i]) !in Names(base + NewEntries(files[..i], hash))
  {
    NamesOfConcat(base, NewEntries(files[..i], hash));
    NamesOfNewEntries(files[..i], hash);
    forall t | 0 <= t < i ensures FileName(files[..i][t]) != FileName(files[i]) {
      assert FileName(files[t]) != FileName(files[i]);
    }
  }

  /** Hashing one more file appends exactly its entry. */
  lemma HashStep(base: seq<Entry>, files: seq<string>, i: nat, hash: string -> ulong)
    requires i < |files|
    ensures base + NewEntries(files[..i + 1], hash)
         == (base + NewEntries(files[..i], hash)) + [Entry(FileName(files[i]), hash(files[i]))]
  {
    var prefix := files[..i + 1];
    assert prefix[..i] == files[..i] && prefix[i] == files[i];
    NewEntriesSnoc(prefix, hash);
  }

  /** Reporting one more file appends exactly its notice. */
  lemma ProgressStep(notices: seq<Notice>, i: nat, n: nat)
    ensures notices + ProgressTrace(i + 1, n) == (notices + ProgressTrace(i, n)) + [Processing(i + 1, n)]
  {
  }

  /** The files to hash inherit the listing's distinct names. */
  lemma FilesToProcessDistinct(listing: seq<string>, kept: seq<Entry>)
    requires DistinctFileNames(listing)
    ensures DistinctFileNames(FilesToProcess(SupportedFiles(listing), kept))
  {
    Seqs.FilterDistinctBy(IsSupported, FileName, listing);
    Seqs.FilterDistinctBy((f: string) => FileName(f) !in Names(kept), FileName, SupportedFiles(listing));
  }
}
