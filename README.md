# vip-hash status command, modelled in Dafny

The `status` command of vip-hash scans a directory tree. It looks up the
reviewer verdicts recorded for each file's content hash, and reports a
per-file status symbol together with totals. Five parts of
`StatusCommand.php` are modelled here:

- **hash_status** (`HashStatus`): the loop over the verdict records of one file.
  It folds them into one of four symbols: `?` unseen, `✓` good, `x` bad
  and `~` mixed.
- **processNode / processFile / processFolder** (`TreeScan`): the scan of an
  abstract finite directory tree. It drops files whose extension is not
  allowed, prunes folders matching a skip suffix and removes empty folders.
  A failed hash or lookup becomes one synthetic `'unknown'` record.
- **count_tree** (`TreeCount`): the recursive reduction of the snapshot to
  the four counters.
- **prettify_tree** (`TreePretty`): the recursive conversion into the nested
  array that the tree renderer draws. It mixes list lines, one per file,
  with string keys `"<name>/"`, one per sub-folder.
- **count_statuses** (`StatusCounts`): `array_count_values` followed by the
  loop that formats each count as `"<N>x <value>"`.

`StatusData` holds the shared values. The PHP code passes untyped arrays,
told apart by which keys they carry. Here a folder, a file item and a bare
record list are the three constructors of `Data`. PHP's `! empty($s)` on a
path is `Truthy`.

The methods follow the PHP loops:
- `ComputeHashStatus`, `CountTree`, `PrettifyTree`, `ProcessFolder` and
  `CountStatuses` are `while` loops;
- the recursive calls of `count_tree` and `prettify_tree` go through the
  methods `CountItem` and `VisitItem`, which hold each loop's body.

Each method is proved equal to a specification function: `Verdict`,
`Tally(Statuses(..))`, `Prettify`, `FolderScan`, and `CountValues` with
`Label`. The lemmas then prove the properties that the code promises about
those functions.

`StatusCommand.php` computes no status for a folder. It only counts file
items (count_tree) and shows one symbol per file (prettify_tree). So the
model has no folder-level status.

Interfaces and inputs the code does not define become parameters:
- the filesystem is an `FsEntry` tree;
- `DataModel::hashFile` and `DataModel::getHashStatusAllUsers` are partial
  maps in `Store`, where a missing key stands for the exception the code
  catches;
- the static `allowed_file_types` and `skip_folders` lists of the parent
  class are fields of `Config`.

## Model

| member | source | states |
|---|---|---|
| HashStatus.ComputeHashStatus | src/automattic/vip/hash/console/StatusCommand.php:211-239 | the loop over `$status`/`$status_set` returns `Verdict(hashes)`, `?` for an empty list |
| HashStatus.VerdictCharacterization | src/automattic/vip/hash/console/StatusCommand.php:211-239 | each of the four symbols, as an if-and-only-if. `?`: no records, or a first record that is neither `'true'` nor `'false'`. `✓`: first `'true'` and no later `'false'`. `x`: first `'false'` and no later `'true'`. `~`: otherwise. |
| HashStatus.UnseenFirstIsFinal | src/automattic/vip/hash/console/StatusCommand.php:218-226 | a first record that is neither verdict gives `?` whatever records follow |
| HashStatus.MixedIsSticky | src/automattic/vip/hash/console/StatusCommand.php:227-236 | once the result is `~`, appending more records keeps it `~` |
| HashStatus.Step | src/automattic/vip/hash/console/StatusCommand.php:227-236 | a later record changes the symbol only from `✓` or `x`, and only to `~`. A `'false'` after `✓` and a `'true'` after `x` always give `~`. |
| HashStatus.RunMixed | src/automattic/vip/hash/console/StatusCommand.php:227-236 | after `~` is reached at some record, it holds at every later record |
| HashStatus.RunUnseen | src/automattic/vip/hash/console/StatusCommand.php:218-236 | a `?` seed stays `?` through every prefix |
| HashStatus.RunGood | src/automattic/vip/hash/console/StatusCommand.php:217-237 | with a `'true'` first record, each prefix gives `~` if some later record in it is `'false'`, else `✓` |
| HashStatus.RunBad | src/automattic/vip/hash/console/StatusCommand.php:217-237 | with a `'false'` first record, each prefix gives `~` if some later record in it is `'true'`, else `x` |
| HashStatus.GlyphInjective | src/automattic/vip/hash/console/StatusCommand.php:25-30 | the four glyphs are distinct, so a glyph determines its symbol |
| StatusData.AfterLastSuffix | src/automattic/vip/hash/console/StatusCommand.php:185-186 | `end(explode(c, s))` is a suffix of `s` in which `c` does not occur |
| StatusData.AfterLastCut | src/automattic/vip/hash/console/StatusCommand.php:192-193 | it is all of `s` when `c` does not occur in `s`, and otherwise starts right after an occurrence of `c` |
| TreeScan.Extension | src/automattic/vip/hash/console/StatusCommand.php:313-314 | `pathinfo`'s extension is present exactly when the base name (after the last `/`) holds a dot, and then contains neither a dot nor a slash |
| TreeScan.SkipMatchesMeaning | src/automattic/vip/hash/console/StatusCommand.php:362-366 | `substr($file, strlen($skip) * -1) === $skip` is "the path ends with the suffix" for a non-empty suffix; for the empty suffix it holds only for the empty path |
| TreeScan.ProcessNode | src/automattic/vip/hash/console/StatusCommand.php:293-300 | a directory yields null or a folder at its own path. A file yields null exactly when its extension is not allowed, and otherwise a non-empty record list. |
| TreeScan.ProcessFile | src/automattic/vip/hash/console/StatusCommand.php:311-352 | returns null exactly when the path has an extension that is not allowed (a file with no extension is processed); otherwise returns a non-empty record list |
| TreeScan.ProcessFileFailure | src/automattic/vip/hash/console/StatusCommand.php:319-351 | a failed hash gives one `{hash:'empty', status:'unknown', file}` record. A failed or empty lookup gives one `{hash, status:'unknown', file}` record. Otherwise the result is exactly the store's records. |
| TreeScan.ChildPath | src/automattic/vip/hash/console/StatusCommand.php:381-384 | a child's path is never the empty string or `"0"`, so its item is always counted and drawn |
| TreeScan.ProcessFolder | src/automattic/vip/hash/console/StatusCommand.php:360-416 | the skip loop and the loop over directory entries return `FolderScan(...)`: null when pruned or nothing survives. Otherwise `{folder, contents}`, with the contents built entry by entry in iteration order. |
| TreeScan.ChildItemsCases | src/automattic/vip/hash/console/StatusCommand.php:377-392 | a dot entry adds nothing. A file adds `{file: real path, hashes: records}`, or nothing when processFile returns null. A directory's result is added as it is, or nothing when it is null. |
| TreeScan.FolderScanNone | src/automattic/vip/hash/console/StatusCommand.php:362-415 | processFolder is null if and only if a skip suffix matches or no child survives; otherwise its `folder` is the path scanned |
| TreeScan.ChildItemsEmpty | src/automattic/vip/hash/console/StatusCommand.php:377-392 | an entry adds nothing exactly when it is a dot entry or its scan returns null, and adds at most one item |
| TreeScan.CollectEmpty | src/automattic/vip/hash/console/StatusCommand.php:375-410 | the contents are empty exactly when no entry adds anything, and hold at most one item per entry |
| TreeScan.ScanShape | src/automattic/vip/hash/console/StatusCommand.php:293-416 | every scan result is null, non-empty records of an allowed file, or a folder in which every folder has a truthy path, no matching skip suffix and at least one item, and every file item has an allowed extension and at least one record |
| TreeScan.FolderShape | src/automattic/vip/hash/console/StatusCommand.php:360-416 | the same shape for the result of processFolder |
| TreeScan.CollectShape | src/automattic/vip/hash/console/StatusCommand.php:375-394 | every item collected by the entry loop has that shape |
| TreeScan.ChildItemsShape | src/automattic/vip/hash/console/StatusCommand.php:377-392 | every item one entry adds has that shape |
| TreeCount.CountTree | src/automattic/vip/hash/console/StatusCommand.php:138-166 | count_tree returns the tally of the symbols of every file item it reaches, in order |
| TreeCount.CountItem | src/automattic/vip/hash/console/StatusCommand.php:146-162 | one pass of the loop adds the item's contribution to the counters. A file item adds its symbol (`?` when it has no records), a truthy sub-folder adds its counts, anything else adds nothing. |
| TreeCount.CountStep | src/automattic/vip/hash/console/StatusCommand.php:145-163 | the counters after `n + 1` items are those after `n` plus the next item's |
| TreeCount.TallyCounts | src/automattic/vip/hash/console/StatusCommand.php:139-153 | each of the four counters holds the number of occurrences of its symbol, and the four add up to the number of symbols counted |
| TreeCount.TallySnoc | src/automattic/vip/hash/console/StatusCommand.php:153 | counting one more symbol adds one to its bucket |
| TreeCount.TallyConcat | src/automattic/vip/hash/console/StatusCommand.php:159-162 | counting two runs of symbols one after the other adds their counters bucket by bucket |
| TreeCount.StatusesLength | src/automattic/vip/hash/console/StatusCommand.php:145-163 | there is exactly one symbol per file item reached |
| TreeCount.CountTreeTotal | src/automattic/vip/hash/console/StatusCommand.php:138-166 | the four counters sum to the number of file items reached; for a non-folder input they are all zero |
| TreeCount.FolderCounts | src/automattic/vip/hash/console/StatusCommand.php:145-163 | appending an item to a folder adds, to its counters, one in the bucket of a file item's symbol, or the counters of anything else |
| TreePretty.PrettifyTree | src/automattic/vip/hash/console/StatusCommand.php:173-202 | prettify_tree, with its early returns, returns `Prettify(data)` |
| TreePretty.VisitItem | src/automattic/vip/hash/console/StatusCommand.php:180-194 | one pass of the loop applies the item's event to `$contents`. A truthy file appends its marked-up line; a truthy sub-folder stores its subtree under `"<last segment>/"`; anything else changes nothing. |
| TreePretty.PrettifyShape | src/automattic/vip/hash/console/StatusCommand.php:173-202 | empty for anything but a truthy folder. Otherwise the list lines are the file lines in item order, and the keys are the sub-folder keys, each present once and holding the subtree of the last sub-folder with that key. The array has no other entries. |
| TreePretty.Markup | src/automattic/vip/hash/console/StatusCommand.php:25-30 | the marked-up string holds the text unchanged as a contiguous part |
| TreePretty.FileLine | src/automattic/vip/hash/console/StatusCommand.php:181-187 | a file's line holds, unchanged, its last path segment, a space and the glyph of its records' verdict (`?` when it has none) |
| TreePretty.FolderKey | src/automattic/vip/hash/console/StatusCommand.php:192-193 | a sub-folder's key ends with `/`, so it is a string key and never collides with a list index |
| TreePretty.PutAppends | src/automattic/vip/hash/console/StatusCommand.php:193 | assigning a key that is absent appends the entry at the end |
| TreePretty.PutReplaces | src/automattic/vip/hash/console/StatusCommand.php:193 | assigning a key that is present replaces its value in place and leaves every other entry where it is |
| TreePretty.PutLines | src/automattic/vip/hash/console/StatusCommand.php:193 | a keyed assignment leaves the list lines unchanged |
| TreePretty.PutKeys | src/automattic/vip/hash/console/StatusCommand.php:193 | a keyed assignment adds its key to the key set |
| TreePretty.PutUnique | src/automattic/vip/hash/console/StatusCommand.php:193 | a keyed assignment keeps every key unique |
| TreePretty.PutMembers | src/automattic/vip/hash/console/StatusCommand.php:193 | after a keyed assignment, the entry under that key holds the new value and every other keyed entry was there before |
| TreePretty.FoldLines | src/automattic/vip/hash/console/StatusCommand.php:179-195 | the loop's list lines are the lines appended, in order |
| TreePretty.FoldKeys | src/automattic/vip/hash/console/StatusCommand.php:179-195 | the loop's keys are the keys assigned, each once |
| TreePretty.FoldValues | src/automattic/vip/hash/console/StatusCommand.php:179-195 | each key holds the value assigned to it last |
| TreePretty.ContentsFold | src/automattic/vip/hash/console/StatusCommand.php:179-195 | `$contents` after `n` items is the result of applying the events of those `n` items in order |
| TreePretty.SizeSplit | src/automattic/vip/hash/console/StatusCommand.php:179-195 | with unique keys, the array has as many entries as it has list lines and keys together |
| StatusCounts.CountStatuses | src/automattic/vip/hash/console/StatusCommand.php:277-284 | count_statuses returns one `"<N>x <value>"` line per distinct input value, in first-occurrence order. N is the value's number of occurrences, and the N written add up to the input length. |
| StatusCounts.CountStatusesMeaning | src/automattic/vip/hash/console/StatusCommand.php:279-283 | the formatted counts of `array_count_values` have the meaning above |
| StatusCounts.SumCountsStep | src/automattic/vip/hash/console/StatusCommand.php:280-282 | each formatted line adds its count to the running sum of the counts written |
| StatusCounts.CountValues | src/automattic/vip/hash/console/StatusCommand.php:279 | `array_count_values` has no key twice and never more entries than values |
| StatusCounts.CountValuesShape | src/automattic/vip/hash/console/StatusCommand.php:279 | `array_count_values` has each input value as a key exactly once and no other key, counts each value's occurrences exactly, and its counts sum to the input length |
| StatusCounts.CountValuesOrder | src/automattic/vip/hash/console/StatusCommand.php:279 | its keys are in the order of their first occurrence in the input |
| StatusCounts.IncrementShape | src/automattic/vip/hash/console/StatusCommand.php:279 | counting one more value keeps the keys (a new value goes at the end), adds one to that value's count alone and adds one to the total; keys stay distinct |
| StatusCounts.IncrementNew | src/automattic/vip/hash/console/StatusCommand.php:279 | a value not yet counted is appended with count 1 |
| StatusCounts.IncrementOld | src/automattic/vip/hash/console/StatusCommand.php:279 | a value already counted keeps its place and its count grows by one |
| StatusCounts.CountAt | src/automattic/vip/hash/console/StatusCommand.php:280 | with distinct keys, looking up an entry's key gives that entry's count |
| StatusCounts.CountAbsent | src/automattic/vip/hash/console/StatusCommand.php:279 | a value that is not a key has count 0 |
| StatusCounts.TotalUpdate | src/automattic/vip/hash/console/StatusCommand.php:279 | changing one count changes the total by the difference |
| StatusCounts.TotalSnoc | src/automattic/vip/hash/console/StatusCommand.php:279 | a new entry adds its count to the total |
| StatusCounts.FirstIndex | src/automattic/vip/hash/console/StatusCommand.php:279 | the index of a value's first occurrence holds the value, and no earlier position holds it |
| StatusCounts.FirstIndexSnoc | src/automattic/vip/hash/console/StatusCommand.php:279 | the first occurrence of a value does not move when more values are appended |
| StatusCounts.NatToString | src/automattic/vip/hash/console/StatusCommand.php:281 | an integer written into a string is a non-empty run of decimal digits |
| StatusCounts.ParseNatToString | src/automattic/vip/hash/console/StatusCommand.php:281 | reading those digits back gives the integer |
| StatusCounts.DigitPrefix | src/automattic/vip/hash/console/StatusCommand.php:281 | the leading run of digits of a line ends at its first non-digit |
| StatusCounts.LabelRoundTrip | src/automattic/vip/hash/console/StatusCommand.php:281 | a line `"<N>x <value>"` determines both N and the value |

## Left out

- `execute`, `display_tree` and `display_totals` (StatusCommand.php:61-131) are left out. They only format output: console styling, the `cli\Tree` renderer, and percentages through `number_format`, which is floating point.
- `count_hash_status` (StatusCommand.php:244-270) is left out. It builds local arrays and returns nothing, so it has no observable behaviour.
- The real filesystem is left out: `DirectoryIterator`, `is_dir`, `getRealPath` and symlinks.
  - A directory's entries are always available. `new DirectoryIterator($file)` throws on an unreadable directory, processFolder does not catch it, and the whole scan aborts; the model has no such failure.
  - A directory is a finite `FsEntry` tree, so cycles cannot arise.
  - A child's real path is the parent path, `/`, and the entry name, with no canonicalisation.
  - `is_dir` and `isDir()` are the entry's constructor.
- Extension matches `pathinfo`'s `extension`, including a leading dot (`.htaccess` gives `htaccess`) and a trailing dot (`foo.` gives the empty extension). One difference: `pathinfo` strips a trailing slash before taking the base name, so `a.php/` has extension `php` in PHP and none in the model. A path from `getRealPath` never ends in a slash, so this does not arise in a scan.
- PHP loose comparison is left out. Statuses are strings, and `'true' == $status` is string equality, so a boolean or numeric `status` is not modelled. `in_array` at StatusCommand.php:315 also compares loosely, so numeric-looking strings compare as numbers (`"1e1"` equals `"10"`); Allowed uses plain string membership. The same holds for `null != $result` in processFolder: the model treats it as "non-null and not an empty list", and processFile never returns an empty list anyway.
- `array_count_values` turns a value that is a decimal integer string into an integer key. The model keeps every key a string. The lines written are the same text.
- `SyncCommand.php` is not part of this model: it is HTTP and JSON plumbing.
- `DataModel.php` is an interface with no behaviour. Only the signatures of `hashFile` and `getHashStatusAllUsers` are used, as the maps of `Store`.
- CountItem and VisitItem are separate methods because they hold the bodies of the loops of count_tree and prettify_tree. The PHP code has these bodies inline.
- StatusCounts.CountOf reads the last entry under a key. Every lemma that uses it requires distinct keys, which `CountValues` always produces, so on those inputs it is the same as PHP's lookup.
