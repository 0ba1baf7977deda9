/**
 Reconciliation of one folder's cached hashes with the folder's current
 listing (ImageScanner.Process, the part before "Comparing images").

 A folder's `Dictionary<string, ulong>` is a sequence of entries with distinct
 names, in the dictionary's enumeration order. .NET leaves that order
 undefined; the model takes it to be insertion order, which is what the .NET
 implementation gives when nothing is removed. The source only ever builds
 the dictionary from a list (the removal pass) and then `Add`s to it.
 */
module FolderHashes {
  import opened Seqs
  import opened Text

  /** An unsigned 64-bit integer, the type of a perceptual hash. */
  newtype ulong = x: int | 0 <= x < 0x1_0000_0000_0000_0000

  /** One cached image: its bare file name and its 64-bit perceptual hash. */
  datatype Entry = Entry(name: string, hash: ulong)

  /** The key set of a folder's dictionary. */
  function Names(d: seq<Entry>): set<string>
  {
    set e | e in d :: e.name
  }

  function NameOf(e: Entry): string
  {
    e.name
  }

  /** No two entries share a name: `d` is a dictionary. */
  predicate DistinctNames(d: seq<Entry>)
  {
    DistinctBy(d, NameOf)
  }

  /** In a dictionary two entries share a name only if they are the same entry. */
  lemma SameNameSameIndex(d: seq<Entry>, x: nat, y: nat)
    requires DistinctNames(d) && x < |d| && y < |d|
    ensures d[x].name == d[y].name <==> x == y
  {
    if x < y {
      assert NameOf(d[x]) != NameOf(d[y]);
    } else if y < x {
      assert NameOf(d[y]) != NameOf(d[x]);
    }
  }

  /** No two paths of a listing have the same bare file name. */
  predicate DistinctFileNames(paths: seq<string>)
  {
    DistinctBy(paths, FileName)
  }

  /** The bare names of a list of paths. */
  function FileNames(paths: seq<string>): set<string>
  {
    set p | p in paths :: FileName(p)
  }

  /** The extension test: the lower-cased full path ends in `.jpeg`, `.jpg`,
      `.png` or `.webp`. */
  predicate IsSupported(path: string)
  {
    var lower := ToLower(path);
    EndsWith(lower, ".jpeg") || EndsWith(lower, ".jpg") || EndsWith(lower, ".png") || EndsWith(lower, ".webp")
  }

  /** `allFiles`: the listing restricted to supported images. */
  function SupportedFiles(listing: seq<string>): (files: seq<string>)
    ensures forall f :: f in files ==> f in listing && IsSupported(f)
    ensures forall f :: f in listing && IsSupported(f) ==> f in files
  {
    Filter(IsSupported, listing)
  }

  /** The extension filter keeps the listing's order: it maps a concatenation
      to the concatenation of the results, and a single path to itself or to
      nothing. */
  lemma SupportedFilesKeepOrder(a: seq<string>, b: seq<string>, path: string)
    ensures SupportedFiles(a + b) == SupportedFiles(a) + SupportedFiles(b)
    ensures SupportedFiles([path]) == if IsSupported(path) then [path] else []
  {
    FilterConcat(IsSupported, a, b);
    FilterSingleton(IsSupported, path);
  }

  /** The stale-entry test: some listed image has exactly the cached name.
      The source tests whether a full path ends with the name; module
      SuffixTest models that test and what it lets through. */
  predicate StillListed(files: seq<string>, name: string)
  {
    name in FileNames(files)
  }

  /** The removal pass: the cached entries that are still listed, in their
      old order and with their old hashes. */
  function RemoveMissing(d: seq<Entry>, files: seq<string>): (kept: seq<Entry>)
    ensures forall e :: e in kept ==> e in d && StillListed(files, e.name)
    ensures forall e :: e in d && StillListed(files, e.name) ==> e in kept
    ensures |kept| <= |d|
    ensures |kept| == |d| <==> forall e :: e in d ==> StillListed(files, e.name)
    ensures DistinctNames(d) ==> DistinctNames(kept)
  {
    var keep := (e: Entry) => StillListed(files, e.name);
    var kept := Filter(keep, d);
    assert DistinctNames(d) ==> DistinctNames(kept) by {
      if DistinctNames(d) { FilterDistinctBy(keep, NameOf, d); }
    }
    kept
  }

  /** `filesToProcess`: the listed images whose name is not (or no longer) a
      key of the reduced dictionary, in listing order. */
  function FilesToProcess(files: seq<string>, kept: seq<Entry>): (todo: seq<string>)
    ensures forall f :: f in todo ==> f in files && FileName(f) !in Names(kept)
    ensures forall f :: f in files && FileName(f) !in Names(kept) ==> f in todo
    ensures |todo| <= |files|
  {
    Filter((f: string) => FileName(f) !in Names(kept), files)
  }

  /** The entry the addition pass records for one file. */
  function HashedEntry(hash: string -> ulong): string -> Entry
  {
    path => Entry(FileName(path), hash(path))
  }

  /** The entries the addition pass appends, one per file, in order. */
  function NewEntries(todo: seq<string>, hash: string -> ulong): seq<Entry>
  {
    Map(HashedEntry(hash), todo)
  }

  /** Hashing one more file appends exactly its entry. */
  lemma NewEntriesSnoc(todo: seq<string>, hash: string -> ulong)
    requires todo != []
    ensures var last := todo[|todo| - 1];
      NewEntries(todo, hash) == NewEntries(todo[..|todo| - 1], hash) + [Entry(FileName(last), hash(last))]
  {
    MapSnoc(HashedEntry(hash), todo);
  }

  /** A folder's dictionary after one scan of `listing`. */
  function Reconciled(d: seq<Entry>, listing: seq<string>, hash: string -> ulong): seq<Entry>
  {
    var files := SupportedFiles(listing);
    var kept := RemoveMissing(d, files);
    kept + NewEntries(FilesToProcess(files, kept), hash)
  }

  /** `saveCache`: the removal pass changed the entry count, or some file
      needs hashing. */
  predicate NeedsSave(d: seq<Entry>, listing: seq<string>)
  {
    var files := SupportedFiles(listing);
    var kept := RemoveMissing(d, files);
    |kept| != |d| || |FilesToProcess(files, kept)| > 0
  }

  lemma NamesOfConcat(a: seq<Entry>, b: seq<Entry>)
    ensures Names(a + b) == Names(a) + Names(b)
  {
  }

  lemma NamesOfNewEntries(todo: seq<string>, hash: string -> ulong)
    ensures Names(NewEntries(todo, hash)) == FileNames(todo)
  {
    var added := NewEntries(todo, hash);
    forall x | x in FileNames(todo) ensures x in Names(added) {
      var i :| 0 <= i < |todo| && FileName(todo[i]) == x;
      assert added[i].name == x;
    }
  }

  /** Appending the entries of the files still to hash makes every listed
      file's name a key. */
  lemma ScanKeys(kept: seq<Entry>, files: seq<string>, hash: string -> ulong)
    ensures Names(kept + NewEntries(FilesToProcess(files, kept), hash)) == Names(kept) + FileNames(files)
  {
    var todo := FilesToProcess(files, kept);
    NamesOfConcat(kept, NewEntries(todo, hash));
    NamesOfNewEntries(todo, hash);
    forall x | x in FileNames(files) ensures x in Names(kept) + FileNames(todo) {
      var f :| f in files && FileName(f) == x;
      if x !in Names(kept) {
        assert f in todo;
      }
    }
  }

  /** The appended entries are exactly those of the files still to hash,
      each under its name with the hash of its path. */
  lemma ScanEntries(kept: seq<Entry>, files: seq<string>, hash: string -> ulong)
    ensures
      var todo := FilesToProcess(files, kept);
      var r := kept + NewEntries(todo, hash);
      && (forall e :: e in kept ==> e in r)
      && (forall f :: f in todo ==> Entry(FileName(f), hash(f)) in r)
      && (forall e :: e in r && e !in kept ==> exists f :: f in todo && e == Entry(FileName(f), hash(f)))
  {
    var todo := FilesToProcess(files, kept);
    var added := NewEntries(todo, hash);
    forall f | f in todo ensures Entry(FileName(f), hash(f)) in kept + added {
      var i :| 0 <= i < |todo| && todo[i] == f;
      assert added[i] == Entry(FileName(f), hash(f));
    }
    forall e | e in kept + added && e !in kept
      ensures exists f :: f in todo && e == Entry(FileName(f), hash(f))
    {
      var i :| 0 <= i < |added| && added[i] == e;
      assert todo[i] in todo;
    }
  }

  /** After a scan the key set is the reduced key set together with the names
      of all listed images; every new key carries the hash of its path and every
      surviving entry keeps its hash. */
  lemma ReconciledContents(d: seq<Entry>, listing: seq<string>, hash: string -> ulong)
    ensures
      var files := SupportedFiles(listing);
      var kept := RemoveMissing(d, files);
      var r := Reconciled(d, listing, hash);
      && Names(r) == Names(kept) + FileNames(files)
      && (forall e :: e in kept ==> e in r)
      && (forall f :: f in FilesToProcess(files, kept) ==> Entry(FileName(f), hash(f)) in r)
      && (forall e :: e in r && e !in kept ==>
            exists f :: f in FilesToProcess(files, kept) && e == Entry(FileName(f), hash(f)))
  {
    var files := SupportedFiles(listing);
    var kept := RemoveMissing(d, files);
    ScanKeys(kept, files, hash);
    ScanEntries(kept, files, hash);
  }

  lemma NewEntriesDistinct(todo: seq<string>, hash: string -> ulong)
    requires DistinctFileNames(todo)
    ensures DistinctNames(NewEntries(todo, hash))
  {
    var added := NewEntries(todo, hash);
    forall i, j | 0 <= i < j < |added| ensures NameOf(added[i]) != NameOf(added[j]) {
      assert FileName(todo[i]) != FileName(todo[j]);
    }
  }

  lemma ConcatDistinct(a: seq<Entry>, b: seq<Entry>)
    requires DistinctNames(a) && DistinctNames(b)
    requires Names(a) !! Names(b)
    ensures DistinctNames(a + b)
  {
    var r := a + b;
    forall i, j | 0 <= i < j < |r| ensures NameOf(r[i]) != NameOf(r[j]) {
      if j < |a| {
        assert NameOf(a[i]) != NameOf(a[j]);
      } else if i >= |a| {
        assert NameOf(b[i - |a|]) != NameOf(b[j - |a|]);
      } else {
        assert r[i].name in Names(a);
        assert r[j] == b[j - |a|];
        assert r[j].name in Names(b);
      }
    }
  }

  /** A scan keeps the entries a dictionary: provided the listing holds no two
      files of the same name, no key is added twice. */
  lemma ReconciledDistinct(d: seq<Entry>, listing: seq<string>, hash: string -> ulong)
    requires DistinctNames(d)
    requires DistinctFileNames(listing)
    ensures DistinctNames(Reconciled(d, listing, hash))
  {
    var files := SupportedFiles(listing);
    var kept := RemoveMissing(d, files);
    var keepNew := (f: string) => FileName(f) !in Names(kept);
    var todo := FilesToProcess(files, kept);
    var added := NewEntries(todo, hash);
    FilterDistinctBy(IsSupported, FileName, listing);
    FilterDistinctBy(keepNew, FileName, files);
    NewEntriesDistinct(todo, hash);
    NamesOfNewEntries(todo, hash);
    forall x | x in Names(added) ensures x !in Names(kept) {
      var f :| f in todo && FileName(f) == x;
    }
    ConcatDistinct(kept, added);
  }

  /** The cache is saved exactly when the scan changed the folder's
      dictionary. */
  lemma SavedIffChanged(d: seq<Entry>, listing: seq<string>, hash: string -> ulong)
    ensures NeedsSave(d, listing) <==> Reconciled(d, listing, hash) != d
  {
    var files := SupportedFiles(listing);
    var kept := RemoveMissing(d, files);
    var todo := FilesToProcess(files, kept);
    var r := Reconciled(d, listing, hash);
    if |kept| != |d| {
      var e :| e in d && !StillListed(files, e.name);
      ReconciledKeys(d, listing, hash);
      assert e.name !in Names(r);
    } else if |todo| > 0 {
      assert |r| > |d|;
    } else {
      assert r == kept;
    }
  }

  /** After a scan the keys are exactly the names of the listed images: no
      stale entry and no missing entry. */
  lemma ReconciledKeys(d: seq<Entry>, listing: seq<string>, hash: string -> ulong)
    ensures Names(Reconciled(d, listing, hash)) == FileNames(SupportedFiles(listing))
  {
    var files := SupportedFiles(listing);
    var kept := RemoveMissing(d, files);
    ReconciledContents(d, listing, hash);
    forall x | x in Names(kept) ensures x in FileNames(files) {
      var e :| e in kept && e.name == x;
    }
  }

  /** When every listed name is already a key, nothing is left to hash. */
  lemma NothingToProcess(files: seq<string>, d: seq<Entry>)
    requires FileNames(files) <= Names(d)
    ensures FilesToProcess(files, d) == []
  {
    forall f | f in files ensures FileName(f) in Names(d) {
      assert FileName(f) in FileNames(files);
    }
    FilterNone((f: string) => FileName(f) !in Names(d), files);
  }

  /** Scanning an unchanged folder a second time removes nothing, hashes
      nothing, saves nothing and leaves the dictionary as it is. */
  lemma RescanIsNoOp(d: seq<Entry>, listing: seq<string>, hash: string -> ulong)
    ensures
      var files := SupportedFiles(listing);
      var r := Reconciled(d, listing, hash);
      && RemoveMissing(r, files) == r
      && FilesToProcess(files, r) == []
      && !NeedsSave(r, listing)
      && Reconciled(r, listing, hash) == r
  {
    var files := SupportedFiles(listing);
    var r := Reconciled(d, listing, hash);
    ReconciledKeys(d, listing, hash);
    forall e | e in r ensures StillListed(files, e.name) {
      assert e.name in Names(r);
    }
    assert RemoveMissing(r, files) == r;
    ReconciledContents(d, listing, hash);
    NothingToProcess(files, r);
  }

  /** Adding one new image to an already scanned folder hashes that image
      and nothing else, wherever it appears in the listing. */
  lemma NewFileIsTheOnlyOneHashed(d: seq<Entry>, before: seq<string>, after: seq<string>,
                                  path: string, hash: string -> ulong)
    requires IsSupported(path)
    requires FileName(path) !in Names(Reconciled(d, before + after, hash))
    ensures
      var r := Reconciled(d, before + after, hash);
      var files := SupportedFiles(before + [path] + after);
      && RemoveMissing(r, files) == r
      && FilesToProcess(files, RemoveMissing(r, files)) == [path]
  {
    var r := Reconciled(d, before + after, hash);
    var old_files := SupportedFiles(before + after);
    var files := SupportedFiles(before + [path] + after);
    SupportedFilesKeepOrder(before, after, path);
    SupportedFilesKeepOrder(before + [path], after, path);
    SupportedFilesKeepOrder(before, [path], path);
    assert files == SupportedFiles(before) + [path] + SupportedFiles(after);
    RescanIsNoOp(d, before + after, hash);
    forall e | e in r ensures StillListed(files, e.name) {
      assert StillListed(old_files, e.name);
      var f :| f in old_files && FileName(f) == e.name;
      assert f in files;
    }
    assert RemoveMissing(r, files) == r;
    var keepNew := (f: string) => FileName(f) !in Names(r);
    FilterConcat(keepNew, SupportedFiles(before) + [path], SupportedFiles(after));
    FilterConcat(keepNew, SupportedFiles(before), [path]);
    FilterSingleton(keepNew, path);
    FilterConcat(keepNew, SupportedFiles(before), SupportedFiles(after));
    assert FilesToProcess(old_files, r) == [];
    assert Filter(keepNew, SupportedFiles(before)) == [];
    assert Filter(keepNew, SupportedFiles(after)) == [];
  }
}
