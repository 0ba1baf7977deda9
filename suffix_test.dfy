/**
 The removal pass as the source writes it: an entry survives while some
 listed full path ends with its name (`s.EndsWith(h.Key)`), so a deleted
 `b.jpg` survives while `ab.jpg` is listed. The rest of the model uses the
 exact-name test of `FolderHashes.StillListed`, under which a scan leaves
 exactly the names of the listed images as keys (`FolderHashes.ReconciledKeys`).
 */
module SuffixTest {
  import opened Seqs
  import opened Text
  import opened FolderHashes

  /** The stale-entry test as written: some listed full path ends with the name. */
  predicate EndsWithListed(files: seq<string>, name: string)
  {
    exists f :: f in files && EndsWith(f, name)
  }

  /** The removal pass as written: the cached entries some listed path ends
      with, in their old order and with their old hashes. */
  function RemoveMissingAsWritten(d: seq<Entry>, files: seq<string>): (kept: seq<Entry>)
    ensures forall e :: e in kept ==> e in d && EndsWithListed(files, e.name)
    ensures forall e :: e in d && EndsWithListed(files, e.name) ==> e in kept
    ensures |kept| <= |d|
  {
    Filter((e: Entry) => EndsWithListed(files, e.name), d)
  }

  /** A scan as written: the suffix test, then the files still to hash. */
  function ReconciledAsWritten(d: seq<Entry>, listing: seq<string>, hash: string -> ulong): seq<Entry>
  {
    var files := SupportedFiles(listing);
    var kept := RemoveMissingAsWritten(d, files);
    kept + NewEntries(FilesToProcess(files, kept), hash)
  }

  /** `saveCache` as written: the suffix-test removal changed the entry count,
      or some file needs hashing. */
  predicate NeedsSaveAsWritten(d: seq<Entry>, listing: seq<string>)
  {
    var files := SupportedFiles(listing);
    var kept := RemoveMissingAsWritten(d, files);
    |kept| != |d| || |FilesToProcess(files, kept)| > 0
  }

  /** A listed path always ends with its own file name, so every name the
      addition pass records passes the suffix test. */
  lemma ListedNamePasses(files: seq<string>, f: string)
    requires f in files
    ensures EndsWithListed(files, FileName(f))
  {
  }

  /** As written too, the cache is saved exactly when the scan changed the
      folder's dictionary. */
  lemma SavedIffChangedAsWritten(d: seq<Entry>, listing: seq<string>, hash: string -> ulong)
    ensures NeedsSaveAsWritten(d, listing) <==> ReconciledAsWritten(d, listing, hash) != d
  {
    var files := SupportedFiles(listing);
    var kept := RemoveMissingAsWritten(d, files);
    var todo := FilesToProcess(files, kept);
    var r := ReconciledAsWritten(d, listing, hash);
    if |kept| != |d| {
      var e :| e in d && !EndsWithListed(files, e.name);
      ScanKeys(kept, files, hash);
      assert e.name !in Names(kept);
      forall f | f in files ensures FileName(f) != e.name {
        ListedNamePasses(files, f);
      }
      assert e.name !in Names(r);
      assert e.name in Names(d);
    } else if |todo| > 0 {
      assert |r| > |d|;
    } else {
      assert r == kept;
    }
  }

  /** As written too, scanning an unchanged folder a second time removes
      nothing, hashes nothing, saves nothing and leaves the dictionary as it is. */
  lemma RescanIsNoOpAsWritten(d: seq<Entry>, listing: seq<string>, hash: string -> ulong)
    ensures
      var files := SupportedFiles(listing);
      var r := ReconciledAsWritten(d, listing, hash);
      && RemoveMissingAsWritten(r, files) == r
      && FilesToProcess(files, r) == []
      && !NeedsSaveAsWritten(r, listing)
      && ReconciledAsWritten(r, listing, hash) == r
  {
    var files := SupportedFiles(listing);
    var kept := RemoveMissingAsWritten(d, files);
    var r := ReconciledAsWritten(d, listing, hash);
    ScanEntries(kept, files, hash);
    ScanKeys(kept, files, hash);
    forall e | e in r ensures EndsWithListed(files, e.name) {
      if e !in kept {
        var f :| f in FilesToProcess(files, kept) && e == Entry(FileName(f), hash(f));
        ListedNamePasses(files, f);
      }
    }
    assert RemoveMissingAsWritten(r, files) == r;
    NothingToProcess(files, r);
  }

  /** The suffix test is weaker than the exact one: whatever the exact test
      keeps, the suffix test keeps too. */
  lemma ExactKeptBySuffix(d: seq<Entry>, files: seq<string>)
    ensures forall e :: e in RemoveMissing(d, files) ==> e in RemoveMissingAsWritten(d, files)
  {
    forall e | e in RemoveMissing(d, files)
      ensures EndsWithListed(files, e.name)
    {
      var f :| f in files && FileName(f) == e.name;
    }
  }

  /** Facts about the example path: it is a supported image, it ends with
      `b.jpg`, and its file name is not `b.jpg`. */
  lemma ExamplePath(path: string)
    requires path == "C:\\img\\ab.jpg"
    ensures IsSupported(path) && EndsWith(path, "b.jpg") && FileName(path) != "b.jpg"
  {
    assert ToLower(path)[|path| - 4..] == ".jpg";
    assert path[|path| - 5..] == "b.jpg";
  }

  /** As written, a cached `b.jpg` whose file is gone stays in the cache (and
      reaches the matcher) as long as `ab.jpg` is listed; the exact test
      drops it. */
  lemma SuffixTestKeepsDeletedFile(hash: string -> ulong)
    ensures
      var d := [Entry("b.jpg", 7)];
      var listing := ["C:\\img\\ab.jpg"];
      && "b.jpg" in Names(ReconciledAsWritten(d, listing, hash))
      && "b.jpg" !in FileNames(SupportedFiles(listing))
      && "b.jpg" !in Names(Reconciled(d, listing, hash))
  {
    var d := [Entry("b.jpg", 7)];
    var path := "C:\\img\\ab.jpg";
    var listing := [path];
    ExamplePath(path);
    SupportedFilesKeepOrder([], listing, path);
    assert SupportedFiles(listing) == listing;
    assert EndsWithListed(listing, "b.jpg");
    var kept := RemoveMissingAsWritten(d, listing);
    assert Entry("b.jpg", 7) in kept;
    var r := ReconciledAsWritten(d, listing, hash);
    assert r == kept + NewEntries(FilesToProcess(listing, kept), hash);
    assert Entry("b.jpg", 7) in r;
    forall f | f in listing
      ensures FileName(f) != "b.jpg"
    {
      assert f == path;
    }
    ReconciledKeys(d, listing, hash);
  }

  /** The file name of the example path is `ab.jpg`. */
  lemma ExampleFileName(path: string)
    requires path == "C:\\img\\ab.jpg"
    ensures FileName(path) == "ab.jpg"
  {
    assert !IsSeparator(path[7]) && IsSeparator(path[6]);
    assert path[7..] == "ab.jpg";
  }

  /** With cache [b.jpg, ab.jpg] and only `C:\img\ab.jpg` listed, the code as
      written keeps both entries, hashes nothing and does not save; the
      exact-name decision drops `b.jpg` and saves. */
  lemma SaveDecisionsDiffer(hash: string -> ulong)
    ensures
      var d := [Entry("b.jpg", 7), Entry("ab.jpg", 9)];
      var listing := ["C:\\img\\ab.jpg"];
      && !NeedsSaveAsWritten(d, listing)
      && ReconciledAsWritten(d, listing, hash) == d
      && NeedsSave(d, listing)
  {
    var d := [Entry("b.jpg", 7), Entry("ab.jpg", 9)];
    var path := "C:\\img\\ab.jpg";
    var listing := [path];
    ExamplePath(path);
    ExampleFileName(path);
    SupportedFilesKeepOrder([], listing, path);
    assert SupportedFiles(listing) == listing;
    assert EndsWithListed(listing, "b.jpg");
    assert EndsWithListed(listing, "ab.jpg");
    var kept := RemoveMissingAsWritten(d, listing);
    assert |kept| == |d|;
    assert Entry("ab.jpg", 9) in kept;
    assert FilesToProcess(listing, kept) == [];
    forall f | f in listing ensures FileName(f) != "b.jpg" {
      assert f == path;
    }
    assert !StillListed(listing, "b.jpg");
    assert |RemoveMissing(d, listing)| != |d|;
  }
}
