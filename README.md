# DuplicateImageCheck scanner in Dafny

This project models `ImageScanner` from DuplicateImageCheck, the engine behind the
duplicate-image finder. It covers the cache of perceptual hashes that persists between
runs and `Process(folder, threshold)`. `Process` does five things in turn:

- it loads the cache file;
- it finds or adds the folder's entry;
- it reconciles that entry with the folder's current listing (removes stale names, hashes new files);
- it writes the cache back when something changed;
- it compares every pair of images and reports the pairs whose similarity reaches the threshold.

It also raises status notifications along the way.

## Modules

| file | module | contents |
|---|---|---|
| `seqs.dfy` | `Seqs` | order-preserving filtering (LINQ `Where(...).ToList()`), mapping each element (how the entries appended by the addition loop are built), distinct keys |
| `text.dfy` | `Text` | `ToLower`, `EndsWith`, `Path.GetFileName`, `int.ToString`, `PadLeft` |
| `folder_hashes.dfy` | `FolderHashes` | one folder's dictionary and its reconciliation with a listing, as pure functions plus lemmas |
| `suffix_test.dfy` | `SuffixTest` | the removal pass exactly as written (suffix test) and the input it gets wrong |
| `matching.dfy` | `Matching` | the nested matching loop as methods; its specification as canonical pairs |
| `scanner.dfy` | `Scanner` | the classes `CacheFolder`, `CacheFile` and `ImageScanner`; the cache file; notifications; `Process` |

### Representation

- **Dictionary.** A folder's `Dictionary<string, ulong>` is a sequence of `Entry(name, hash)` with distinct names, in the dictionary's enumeration order. .NET leaves a `Dictionary`'s enumeration order undefined. The model takes it to be insertion order, which is how the .NET implementation behaves when nothing has been removed. The source never removes from the dictionary: it builds it from a list (the removal pass) and then only `Add`s to it. That order decides which name of a pair comes first in a match.
- **Objects.** `CacheFolder` and `CacheFile` are classes whose fields the methods update in place. The entry object that `Process` updates is the same object the cache holds, and the proofs track that aliasing.
- **The cache file.** It is the field `ImageScanner.cacheFile` (`None` while no file exists). Every load of the cache (`Load`, logged whether or not a file exists) and every write of it is appended to `ioLog`.
- **Notifications.** Every status notification is appended to `status`.
- **Environment and foreign code.** The file system is an input: whether the folder exists, and the listed full paths. The perceptual hash (`PerceptualHash.Hash`) and the score (`CompareHash.Similarity`) are parameters. The score and the threshold are `real`.
- **What `Process` promises.** Proved in `Scanner.ImageScanner.Process`:
  - a missing folder yields no matches and touches nothing;
  - otherwise the cache is loaded once;
  - the folder's dictionary becomes `Reconciled(entry, listing, hash)`;
  - the cache is written, with that dictionary, exactly when `NeedsSave` holds (which is exactly when the dictionary changed);
  - the notifications are "Cache loaded", one counter per hashed file, "Comparing images" and "Done";
  - every match names two distinct images scoring at least the threshold;
  - with a symmetric score, the matches are exactly the canonical pairs `AllPairs`: each unordered qualifying pair once, earlier key first, in key order.

## Model

| member | source | states |
|---|---|---|
| Seqs.Filter | DuplicateImageCheck/ImageScanner.cs:81-84 | `Where(...).ToList()` keeps exactly the elements satisfying the predicate, and nothing is dropped exactly when every element satisfies it |
| Seqs.FilterConcat | DuplicateImageCheck/ImageScanner.cs:81-84 | filtering keeps relative order: it distributes over concatenation |
| Seqs.FilterDistinctBy | DuplicateImageCheck/ImageScanner.cs:96 | filtering a list with distinct keys keeps the keys distinct |
| Text.ToLower | DuplicateImageCheck/ImageScanner.cs:82-83 | `ToLower()` maps each character to its lower-case form (ASCII letters only), keeping the length |
| Text.EndsWith | DuplicateImageCheck/ImageScanner.cs:82-83 | ordinal `EndsWith`: the suffix is no longer than the text and equals its last characters |
| Text.FileName | DuplicateImageCheck/ImageScanner.cs:96 | `Path.GetFileName` is the suffix of the path after its last separator and holds no separator |
| Text.NatToString | DuplicateImageCheck/ImageScanner.cs:112 | `ToString()` yields a decimal numeral without leading zeros denoting the number |
| Text.PadLeft | DuplicateImageCheck/ImageScanner.cs:112 | `PadLeft(4, '0')` reaches the width, ends with the original text and pads only with the pad character |
| Text.PaddedCount | DuplicateImageCheck/ImageScanner.cs:112 | the padded counter is a numeral of at least four digits that still denotes the count |
| Text.PaddedCountWidth | DuplicateImageCheck/ImageScanner.cs:112 | below 10000 the padded counter is exactly four characters |
| Scanner.ProgressText | DuplicateImageCheck/ImageScanner.cs:112 | "Processing cccc of tttt": 23 characters with both four-digit counters decoding to count and total |
| FolderHashes.IsSupported | DuplicateImageCheck/ImageScanner.cs:82-83 | the extension test: the lower-cased full path ends in .jpeg, .jpg, .png or .webp |
| FolderHashes.SupportedFiles | DuplicateImageCheck/ImageScanner.cs:81-84 | a listed path is kept exactly when its lower-cased path ends in .jpeg, .jpg, .png or .webp |
| FolderHashes.SupportedFilesKeepOrder | DuplicateImageCheck/ImageScanner.cs:81-84 | the extension filter preserves listing order, path by path |
| FolderHashes.RemoveMissing | DuplicateImageCheck/ImageScanner.cs:87-91 | the removal pass keeps exactly the cached entries still listed, with their hashes and order; it never grows, and it keeps the size exactly when nothing is stale (exact-name test, see Findings) |
| FolderHashes.FilesToProcess | DuplicateImageCheck/ImageScanner.cs:96 | the files to hash are exactly the listed images whose name is not a key after removal |
| FolderHashes.NewEntries | DuplicateImageCheck/ImageScanner.cs:104-110 | the entries the addition loop appends: for each file to hash, in order, its bare name with the hash of its path |
| FolderHashes.Reconciled | DuplicateImageCheck/ImageScanner.cs:87-110 | the folder's dictionary after a scan: the removal pass (exact-name test, see Findings) followed by the new entries of the files still to hash; its properties are proved in ReconciledContents, ReconciledKeys, ReconciledDistinct and RescanIsNoOp |
| FolderHashes.NeedsSave | DuplicateImageCheck/ImageScanner.cs:86-116 | `saveCache`: the removal pass changed the entry count, or some file needs hashing; SavedIffChanged proves it holds exactly when the dictionary changed (exact-name test, see Findings; the decision as written is SuffixTest.NeedsSaveAsWritten) |
| FolderHashes.NewEntriesSnoc | DuplicateImageCheck/ImageScanner.cs:104-110 | hashing one more file appends exactly its (name, hash) entry |
| FolderHashes.ScanKeys | DuplicateImageCheck/ImageScanner.cs:96-110 | after the addition pass every listed image's name is a key |
| FolderHashes.ScanEntries | DuplicateImageCheck/ImageScanner.cs:96-110 | the addition pass keeps every surviving entry and adds exactly one entry per file to hash, carrying the hash of that file |
| FolderHashes.ReconciledContents | DuplicateImageCheck/ImageScanner.cs:87-117 | after a scan the keys are the surviving keys plus all listed names; old entries keep their hashes, new ones carry their file's hash |
| FolderHashes.ReconciledKeys | DuplicateImageCheck/ImageScanner.cs:87-117 | after a scan the key set is exactly the set of listed image names: no stale entry, no missing entry |
| FolderHashes.NewEntriesDistinct | DuplicateImageCheck/ImageScanner.cs:109 | files with distinct names give entries with distinct keys |
| FolderHashes.ConcatDistinct | DuplicateImageCheck/ImageScanner.cs:109 | appending entries whose keys are new keeps a dictionary a dictionary |
| FolderHashes.ReconciledDistinct | DuplicateImageCheck/ImageScanner.cs:90-110 | a scan never adds a key twice, so `Dictionary.Add` cannot throw |
| FolderHashes.SavedIffChanged | DuplicateImageCheck/ImageScanner.cs:86-117 | `saveCache` is set exactly when the scan changed the folder's dictionary |
| FolderHashes.NothingToProcess | DuplicateImageCheck/ImageScanner.cs:96-100 | when every listed name is already a key, nothing is hashed |
| FolderHashes.RescanIsNoOp | DuplicateImageCheck/ImageScanner.cs:87-117 | a second scan of an unchanged folder removes nothing, hashes nothing, saves nothing and leaves the dictionary unchanged |
| FolderHashes.NewFileIsTheOnlyOneHashed | DuplicateImageCheck/ImageScanner.cs:87-117 | after adding one new image to a scanned folder, the next scan removes nothing and hashes that image only |
| SuffixTest.RemoveMissingAsWritten | DuplicateImageCheck/ImageScanner.cs:90-91 | as written, an entry is kept exactly when some listed full path ends with its name |
| SuffixTest.ReconciledAsWritten | DuplicateImageCheck/ImageScanner.cs:87-110 | the folder's dictionary after a scan as written: the suffix-test removal pass followed by the new entries of the files still to hash |
| SuffixTest.NeedsSaveAsWritten | DuplicateImageCheck/ImageScanner.cs:86-116 | `saveCache` as written: the suffix-test removal changed the entry count (line 93), or some file needs hashing (line 100); its properties are proved in SavedIffChangedAsWritten and RescanIsNoOpAsWritten |
| SuffixTest.SavedIffChangedAsWritten | DuplicateImageCheck/ImageScanner.cs:86-116 | as written too, the cache is saved exactly when the scan changed the folder's dictionary |
| SuffixTest.RescanIsNoOpAsWritten | DuplicateImageCheck/ImageScanner.cs:86-116 | as written too, a second scan of the same listing removes nothing, hashes nothing, does not save and leaves the dictionary as it was |
| SuffixTest.SaveDecisionsDiffer | DuplicateImageCheck/ImageScanner.cs:90-100 | with cache [b.jpg, ab.jpg] and listing [C:\img\ab.jpg], the code as written keeps both entries and does not save, while the exact-name decision saves |
| SuffixTest.ExactKeptBySuffix | DuplicateImageCheck/ImageScanner.cs:90-91 | every entry the exact test keeps is kept by the suffix test too |
| SuffixTest.SuffixTestKeepsDeletedFile | DuplicateImageCheck/ImageScanner.cs:90-91 | as written, a deleted `b.jpg` stays cached while `ab.jpg` is listed; the exact test drops it |
| Matching.PairsSnoc | DuplicateImageCheck/ImageScanner.cs:126-128 | the canonical pairs of one more outer key are the earlier ones followed by that key's row |
| Matching.RowMembers | DuplicateImageCheck/ImageScanner.cs:128-135 | the row of key i holds exactly its qualifying pairs with later keys |
| Matching.PairsMembers | DuplicateImageCheck/ImageScanner.cs:126-135 | the first n rows hold exactly the qualifying pairs whose first key is among the first n |
| Matching.AllPairsMembers | DuplicateImageCheck/ImageScanner.cs:126-159 | the canonical matches are exactly the qualifying pairs (inclusive threshold); their two names differ |
| Matching.CountConcat | DuplicateImageCheck/ImageScanner.cs:149 | occurrences of an ordered pair add up over concatenation |
| Matching.CountAbsent | DuplicateImageCheck/ImageScanner.cs:149 | a list with no match for an ordered pair counts it zero times |
| Matching.RowForward | DuplicateImageCheck/ImageScanner.cs:128-155 | a row holds the pair (p, q), p before q, once when it is row p and the pair qualifies, and never otherwise |
| Matching.MatchCount | DuplicateImageCheck/ImageScanner.cs:149-154 | in a dictionary a single match names keys p and q only when it was made from those two entries |
| Matching.FlattenCount | DuplicateImageCheck/ImageScanner.cs:126-159 | when only row p can hold a pair, the whole result holds it as often as row p does |
| Matching.OncePerPair | DuplicateImageCheck/ImageScanner.cs:126-159 | each unordered pair of keys appears once if it qualifies and never otherwise, never in both orders, earlier key first |
| Matching.ThreeImages | DuplicateImageCheck/ImageScanner.cs:126-159 | scores 92 (a, b), 40 (a, c) and 38 (b, c) at threshold 80 give exactly the match (a.jpg, b.jpg, 92) |
| Matching.HasFirstName | DuplicateImageCheck/ImageScanner.cs:136-145 | the search with `break` finds a match exactly when some recorded match has the name as first name |
| Matching.StepKeepsCanonical | DuplicateImageCheck/ImageScanner.cs:136-155 | with a symmetric score the search suppresses the pair exactly when it was already recorded in the other order |
| Matching.MatchEntry | DuplicateImageCheck/ImageScanner.cs:128-158 | one outer round records only distinct qualifying pairs and, with a symmetric score, extends the canonical pairs by exactly that key's row |
| Matching.FindMatches | DuplicateImageCheck/ImageScanner.cs:126-159 | every reported match names two distinct keys scoring at least the threshold; with a symmetric score the result is exactly the canonical pairs |
| Scanner.Message | DuplicateImageCheck/ImageScanner.cs:78-161 | the text of each notification: "Cache loaded", "Processing cccc of tttt" with zero-padded counters, "Comparing images", "Done" |
| Scanner.ScanTraceShape | DuplicateImageCheck/ImageScanner.cs:78-161 | a scan that hashes n images reports "Cache loaded", the counters 1..n of n, "Comparing images", then "Done" |
| Scanner.CacheFolder.constructor | DuplicateImageCheck/ImageScanner.cs:17-20 | a new folder entry has an empty dictionary |
| Scanner.CacheFolder.Add | DuplicateImageCheck/ImageScanner.cs:109 | adding a new key appends exactly that entry |
| Scanner.CacheFile.constructor | DuplicateImageCheck/ImageScanner.cs:22-25 | a new cache holds no folders |
| Scanner.CacheFile.Deserialize | DuplicateImageCheck/ImageScanner.cs:34-35 | a loaded cache holds exactly the file's content, each folder in its own fresh entry object |
| Scanner.CacheFile.Add | DuplicateImageCheck/ImageScanner.cs:75 | adding a folder under a new key adds exactly that folder and keeps the cache consistent |
| Scanner.CacheFile.AddNew | DuplicateImageCheck/ImageScanner.cs:74-75 | a fresh entry object holding the given dictionary is added under a new key |
| Scanner.CacheFile.Snapshot | DuplicateImageCheck/ImageScanner.cs:42 | serializing the cache writes exactly what it holds |
| Scanner.ImageScanner.ReadCacheFile | DuplicateImageCheck/ImageScanner.cs:27-38 | the cache is loaded once; a missing file gives an empty cache without reading, otherwise the cache holds the file's content in fresh objects |
| Scanner.ImageScanner.SaveCacheFile | DuplicateImageCheck/ImageScanner.cs:40-45 | the whole cache, every folder included, is written over the file |
| Scanner.ImageScanner.HashOne | DuplicateImageCheck/ImageScanner.cs:106-112 | one round adds the file's (name, hash) entry and reports its counter |
| Scanner.ImageScanner.HashNewFiles | DuplicateImageCheck/ImageScanner.cs:100-114 | the loop appends one entry per file in order and reports the counters 1..n of n |
| Scanner.ImageScanner.FindFolder | DuplicateImageCheck/ImageScanner.cs:64-76 | the folder's entry is the cached object when present, else a fresh empty one added under the folder |
| Scanner.ImageScanner.UpdateFolder | DuplicateImageCheck/ImageScanner.cs:80-117 | the entry becomes the reconciled dictionary, `saveCache` is `NeedsSave`, and one counter per hashed file is reported |
| Scanner.ImageScanner.RefreshEntry | DuplicateImageCheck/ImageScanner.cs:86-117 | updating the shared entry updates that folder of the cache and no other |
| Scanner.ImageScanner.RefreshAndSave | DuplicateImageCheck/ImageScanner.cs:86-122 | the cache file is written, with the updated folder, exactly when the scan changed it |
| Scanner.ImageScanner.LoadFolder | DuplicateImageCheck/ImageScanner.cs:64-76 | the cache is loaded once and the folder's entry holds its cached dictionary, or an empty one |
| Scanner.ImageScanner.LoadAndUpdate | DuplicateImageCheck/ImageScanner.cs:64-122 | one load, then one write of the updated cache exactly when needed, with "Cache loaded" and the counters reported |
| Scanner.ImageScanner.Process | DuplicateImageCheck/ImageScanner.cs:57-162 | missing folder: no matches and nothing touched; otherwise the cache effects and notifications above, and matches that are exactly the canonical pairs of the reconciled dictionary when the score is symmetric |
| Scanner.NextKeyIsNew | DuplicateImageCheck/ImageScanner.cs:109 | the next file's name is not yet a key when it is added |
| Scanner.HashStep | DuplicateImageCheck/ImageScanner.cs:104-110 | one round of the addition loop extends the dictionary by that file's entry |
| Scanner.ProgressStep | DuplicateImageCheck/ImageScanner.cs:112 | one round of the addition loop extends the notifications by its counter |
| Scanner.UpdateTwice | DuplicateImageCheck/ImageScanner.cs:75 | updating a folder twice leaves the second dictionary |
| Scanner.WellFormedUpdate | DuplicateImageCheck/ImageScanner.cs:90 | replacing one folder's dictionary by a dictionary keeps every folder a dictionary |
| Scanner.FilesToProcessDistinct | DuplicateImageCheck/ImageScanner.cs:81-96 | the files to hash inherit distinct names from the listing |

## Left out

- Culture: `ToLower` and `EndsWith` are culture-sensitive in .NET. The model lower-cases ASCII letters only and compares ordinally.
- Paths: `Path.GetFileName` is modelled as the text after the last `\` or `/`. Drive-letter and UNC details are not modelled, nor is `Path.Combine` for the cache location (line 15).
- Cache file format: the JSON format of the cache file is not modelled. Serialization is the identity on the cache's content. A malformed or `null` file, which makes `JsonSerializer.Deserialize` throw or return null, is not modelled. `Directory.CreateDirectory` (line 43) is not modelled.
- Failures: I/O and hashing failures (exceptions from `File.OpenRead`, `PerceptualHash.Hash` or the file write) are not modelled. Every operation is assumed to succeed.
- Concurrency: `async`/`await` and `Task.Run` are not modelled. The hashing loop runs sequentially, as the awaited task does; concurrent calls of `Process` are not modelled.
- Foreign code: `PerceptualHash.Hash` and `CompareHash.Similarity` are parameters. The score's symmetry is a hypothesis of the matching guarantee.
- Scores: `double` scores and thresholds are modelled as `real`, so rounding is not modelled.
- The listing: `Directory.EnumerateFiles` becomes a sequence of full paths with distinct file names. This is a requirement on `Process` (files of one folder have distinct names), and `Dictionary.Add` would throw without it.
- Scanner.ImageScanner.Process: notifications go to a log rather than to subscribers of `OnStatusChanged`; the event and its delegate (lines 47-48) are not modelled.
- Extensions: the supported set follows the code (.jpeg, .jpg, .png, .webp).
- Scanner.ImageScanner.Process: uses the exact-name removal test rather than the source's suffix test (see Findings). The suffix test is modelled by `SuffixTest.RemoveMissingAsWritten`.
- FolderHashes.RemoveMissing: keeps an entry when a listed image has exactly its name, not when a listed full path merely ends with it (lines 90-91, see Findings).
- FolderHashes.Reconciled: built on the exact-name removal pass; the scan as written is `SuffixTest.ReconciledAsWritten`.
- FolderHashes.NeedsSave: decides over the exact-name removal pass, so on the Findings input it can save where line 93 does not: with cache [b.jpg, ab.jpg] and listing [C:\img\ab.jpg] it holds, while the code as written (`SuffixTest.NeedsSaveAsWritten`) leaves `saveCache` false (`SuffixTest.SaveDecisionsDiffer`). `Scanner.ImageScanner.Process` writes the cache according to this decision.
- Scanner.ImageScanner.UpdateFolder: the entry becomes the exact-name reconciled dictionary, not the suffix-test result of lines 90-91.
- Scanner.ImageScanner.RefreshEntry: states its update over the exact-name reconciliation.
- Scanner.ImageScanner.RefreshAndSave: states its write decision over the exact-name reconciliation.
- Scanner.ImageScanner.LoadAndUpdate: states its effects over the exact-name reconciliation.
- UI: the window code (`MainWindow.xaml.cs`) is not part of this model.

## Findings

| source | as written | input that shows it | evidently intended | confidence | as-written member | corrected member |
|---|---|---|---|---|---|---|
| DuplicateImageCheck/ImageScanner.cs:90-91 | a cached name is kept while some listed full path `EndsWith` it | cache holds `b.jpg`, which was deleted; the folder lists `C:\img\ab.jpg`: `b.jpg` stays cached and is still compared | keep a cached name only when a listed image has exactly that file name, so after a scan the keys are exactly the listed image names | high (not executed) | SuffixTest.SuffixTestKeepsDeletedFile | FolderHashes.ReconciledKeys |
