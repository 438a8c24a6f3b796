# Completion cache and projection specification, in Dafny

This project models two parts of the Google Cloud SDK's core library and
proves properties of the models.

**The remote-completion name cache** (`remote_completion.py`). Shell
completion for resource arguments keeps the names of remote resources in
files under a cache directory. A self-link such as
`https://www.googleapis.com/compute/v1/projects/p/zones/z/instances/vm1`
maps to the cache file `.../zones/z/instances/_names_`, which holds `vm1`
and its siblings one per line. The file's modification time is the
record's expiry. A cache path can hold a `*` for a level the user has not
fixed yet, such as the zone. Reading it then visits every fresh branch
below that level. Each name is annotated with the flag that selects its
branch (` --zone us-central1-a`). The modules are:

- `Strings` and `Paths`: Python's `split`, `join`, `replace` and
  `posixpath` `join`, `dirname` and `basename`.
- `FileSystem`: an abstract filesystem. Each call returns the new state
  and the exception it raised, if any.
- `CachePaths`: `CachePath`.
- `CacheRead`: `GetFromCache` and `GetAllMatchesFromCache`, with the class
  counters `CACHE_TRIES` and `CACHE_HITS` and the instance's pending flag
  annotation threaded through.
- `CacheWrite`: `StoreInCache`, `AddToCache` and `DeleteFromCache`.
- `Completer`: the `RemoteCompleter` closure. It extracts the prefix,
  reads the cache, falls back to a fetch, stores the result, and
  re-reads the cache for a wildcard link.

**The projection specification** (`resource_projection_spec.py`). This is
the container a projection expression compiles to. It holds attributes,
aliases, columns and a tree of keyed nodes. Each node carries a flag, an
ordinal, a sort order, a label and an alignment. The modules are:

- `ProjectionTree`: the tree, the depth-first walk `_Ordering`, and the
  `_Defaults` rewrite.
- `ProjectionSort`: Python's stable `sorted` over keys of optional
  integers, compared the Python 2 way (`None` sorts first).
- `ProjectionSpec`: the container and its views `Order`, `Labels` and
  `Alignments`.

Inputs the code gets from the environment are parameters here:

- the current time `now`;
- the cache directory;
- the filesystem state;
- the `COMP_LINE` variable;
- the resource parser's verdict on a self-link;
- the weak self-link the completer builds;
- the self-links the list command returns.

Several behaviours follow the code where a store-once cache would lead a
reader to expect something else:

- `StoreInCache` writes a group's file only when the file's *directory* is
  missing (`remote_completion.py:301-304`). An existing file keeps its
  names, however stale, but gets a new expiry on every call (`:305-307`).
  This is `CacheWrite.StoreIntoExistingDir`.
- The first exception in the store loop silently ends it (`:308-309`).
  That includes stamping a file that is missing. So a group whose
  directory an earlier group already created (its directory is an ancestor
  of the earlier group's cache file) is not written and, having no file to
  stamp, ends the loop: neither it nor any later group is stored. This is
  `CacheWrite.StoreInCacheEach`.
- Deleting a record's last name removes the file and keeps its directory
  (`:332-334`). A later `AddToCache` for the same link finds no file, so
  it falls back to `StoreInCache`. That store finds the directory, writes
  nothing, fails to stamp the missing file, and stops. The name is lost.
  This is `CacheWrite.AddAfterDeletingLastIsLost`.
- A wildcard read uses only the text between the first and the second
  `*` as the tail of each branch path (`:239`).
- After a fetch for a wildcard link, the completer re-reads the cache. It
  takes back one hit only when the re-read is non-empty (`:443-446`). One
  hit is taken back however many branches the re-read visited. So the
  compensation is exact only when one branch is fresh.
  `Completer.CompleteRereadsWildcard` states the count exactly, and
  `Completer.Complete` proves that a completion never lowers it.

## Model

All source paths are relative to the repository root shown in each row.

| member | source | states |
|---|---|---|
| CachePaths.CachePathShape | google-cloud-sdk/lib/googlecloudsdk/core/remote_completion.py:182-186 | The name is the slash-free text after the last `/` of the link with every `https://` removed. The cache file's last component is `_names_`. |
| CachePaths.SiblingsShareCacheFile | google-cloud-sdk/lib/googlecloudsdk/core/remote_completion.py:182-186 | Two links that differ only in their last segment map to the same cache file. Their names differ by exactly that segment. |
| CachePaths.CacheDirSegments | google-cloud-sdk/lib/googlecloudsdk/core/remote_completion.py:183-186 | The cache file is the non-empty segments before the name, joined by single slashes, followed by `_names_`. Empty segments vanish under `os.path.join`. |
| CachePaths.CachePathReversible | google-cloud-sdk/lib/googlecloudsdk/core/remote_completion.py:182-186 | When the link has no empty segment, replacing `_names_` by the name gives back the link without its scheme. |
| CacheRead.FlagName | google-cloud-sdk/lib/googlecloudsdk/core/remote_completion.py:235-236 | The flag is looked up under `<component two after the first completion_cache>.<second-to-last component>`, and it is that key's value in `_RESOURCE_FLAGS`. A path without a `completion_cache` component raises `ValueError`. Too few components after it raise `IndexError`. A key not in the table raises `KeyError`. |
| CacheRead.AnnotatedMatches | google-cloud-sdk/lib/googlecloudsdk/core/remote_completion.py:259-261 | An item is in the result exactly when it is a record line that starts with the prefix (any line if the prefix is empty), followed by the pending flags. |
| CacheRead.GetAllMatches | google-cloud-sdk/lib/googlecloudsdk/core/remote_completion.py:219-264 | A read never lowers the hit counter. A read that starts with no options and returns some has counted at least one hit. |
| CacheRead.GetFromCache | google-cloud-sdk/lib/googlecloudsdk/core/remote_completion.py:203-217 | Exactly one try is counted per call, whatever the fan-out. A wildcard-free read misses exactly when the record is missing or expired. Otherwise it returns the matching lines with the pending flags, counts one hit and clears the flags. |
| CacheRead.LeafRead | google-cloud-sdk/lib/googlecloudsdk/core/remote_completion.py:250-264 | A wildcard-free path is a miss unless its record is fresh. A fresh record appends its annotated matches to the options passed in, even when there are none, and counts one hit. |
| CacheRead.BranchesRead | google-cloud-sdk/lib/googlecloudsdk/core/remote_completion.py:237-241 | The loop over a wildcard level reads exactly the fresh branches, counts one hit per branch, and returns the reference union of their annotated matches. The options stay as they were when no branch is fresh. |
| CacheRead.WildcardRead | google-cloud-sdk/lib/googlecloudsdk/core/remote_completion.py:230-249 | For any path with at least one `*`, the head is the text before the first `*` and the tail the text between the first and the second. A wildcard read misses when the head is not a directory. A bad flag lookup raises its error. Otherwise the read returns the branch union followed by the fresh `global` sibling below `regions/`, annotated ` --global`. It is still a miss when nothing was fresh, and the hits grow by the number of records read. |
| CacheWrite.TimeoutFor | google-cloud-sdk/lib/googlecloudsdk/core/remote_completion.py:144-149 | The timeout is the table's entry for a collection in `_TIMEOUTS` (600 or 36000 seconds) and 300 seconds for any other. |
| CacheWrite.CollectionFromLink | google-cloud-sdk/lib/googlecloudsdk/core/remote_completion.py:284-287 | The collection guessed from a raw link is non-empty. Guessing raises `IndexError` exactly when the link has fewer than four `/`-separated parts. |
| CacheWrite.CollectionOfSelfLink | google-cloud-sdk/lib/googlecloudsdk/core/remote_completion.py:286-287 | A self-link `https://host/api/<segments>/collection/name` guesses the collection `api.collection`, whatever segments lie between. |
| CacheWrite.GroupByPathSpec | google-cloud-sdk/lib/googlecloudsdk/core/remote_completion.py:288-294 | The grouping has one group per cache file, and no group is empty. Each cache file's names are exactly those of the links that map to it, in input order. |
| CacheWrite.GroupsMatchReference | google-cloud-sdk/lib/googlecloudsdk/core/remote_completion.py:288-294 | Every group equals the reference list of names for its path. A path has a group exactly when some link maps to it. |
| CacheWrite.StoreInCache | google-cloud-sdk/lib/googlecloudsdk/core/remote_completion.py:268-309 | An exception that escapes leaves the filesystem unchanged. When no collection is found, nothing is stored and no error is raised. |
| CacheWrite.StoreGroupsEach | google-cloud-sdk/lib/googlecloudsdk/core/remote_completion.py:297-309 | In the store loop, a failure before group `i` means the loop ended there, with nothing from `i` on stored. A failure of group `i` itself ends the loop with its exception. Otherwise the record group `i` leaves survives to the end, because no later group targets its file. |
| CacheWrite.StoreInCacheEach | google-cloud-sdk/lib/googlecloudsdk/core/remote_completion.py:288-309 | Storing links never raises. Take each cache file's group and the state the groups ahead of it leave. If an earlier group failed, nothing from that group on is stored. If nothing stands where the group goes, its record holds exactly the names of the links under it, in order, one per line, and expires after the collection's timeout. If the directory and the record exist, only the expiry changes. If the directory exists but the record does not, the loop stops there. |
| CacheWrite.StoreCreatesRecord | google-cloud-sdk/lib/googlecloudsdk/core/remote_completion.py:297-307 | Storing one link where nothing stands yet creates its record. The record holds exactly the link's name and expires at `now` plus the collection's timeout. |
| CacheWrite.StoreThenRead | google-cloud-sdk/lib/googlecloudsdk/core/remote_completion.py:297-307 | A stored link reads back as its name until the timeout has elapsed. From then on the read misses. |
| CacheWrite.StoreIntoExistingDir | google-cloud-sdk/lib/googlecloudsdk/core/remote_completion.py:299-307 | When the directory exists, nothing is written. An existing record keeps its names and only gets the new expiry. A missing record stays missing. |
| CacheWrite.StoreTouchesOnlyItsFiles | google-cloud-sdk/lib/googlecloudsdk/core/remote_completion.py:297-309 | A store changes or creates only the cache files of the links it is given. It deletes no file and no directory. |
| CacheWrite.RemoveFirst | google-cloud-sdk/lib/googlecloudsdk/core/remote_completion.py:331-331 | `list.remove` drops exactly the first occurrence of the name, keeping the others in order. |
| CacheWrite.MissingRecord | google-cloud-sdk/lib/googlecloudsdk/core/remote_completion.py:325-346 | With no record, an add falls back to storing the one link and a delete does nothing. A directory in the record's place raises `IOError`. |
| CacheWrite.AddAppendsKeepingExpiry | google-cloud-sdk/lib/googlecloudsdk/core/remote_completion.py:321-339 | Adding appends the name as the last line, without removing duplicates. The record keeps its expiry and every other file is untouched. |
| CacheWrite.DeleteRemovesFirstOccurrence | google-cloud-sdk/lib/googlecloudsdk/core/remote_completion.py:330-357 | An absent name changes nothing. Deleting the only name removes the file. Otherwise the first occurrence is dropped, the expiry is kept, and every other file is untouched. |
| CacheWrite.DeleteLastRemovesFile | google-cloud-sdk/lib/googlecloudsdk/core/remote_completion.py:330-334 | Deleting the last name removes exactly that file and no directory. |
| CacheWrite.AddAfterDeletingLastIsLost | google-cloud-sdk/lib/googlecloudsdk/core/remote_completion.py:326-343 | After the last name is deleted, adding the same link changes nothing, and reads of it keep missing. |
| Completer.Prefix | google-cloud-sdk/lib/googlecloudsdk/core/remote_completion.py:384-391 | The prefix is a suffix of the command line with no space or tab, and it is the longest such suffix. It is empty when the line is unset. |
| Completer.CompletionPrefix | google-cloud-sdk/lib/googlecloudsdk/core/remote_completion.py:384-391 | The backwards character scan yields exactly the maximal blank-free tail. |
| Completer.TrailingWordUnique | google-cloud-sdk/lib/googlecloudsdk/core/remote_completion.py:387-391 | Only one blank-free tail of a line is either the whole line or preceded by a blank. |
| Completer.FetchedNames | google-cloud-sdk/lib/googlecloudsdk/core/remote_completion.py:435-438 | The fallback options are exactly the last segments of the fetched links that match the prefix. |
| Completer.Complete | google-cloud-sdk/lib/googlecloudsdk/core/remote_completion.py:380-450 | A failed link yields nothing. A completion never lowers the hit count. It counts two tries exactly when it re-reads after storing, and one otherwise. A first read that does not miss leaves the cache alone. An exception yields no options, including one from the store. A hit returns the first read's options and counters. A miss without a re-read returns the fetched names and the stored state. A re-read returns what the second read finds in the stored state, or nothing, and takes back one hit exactly when it returns something. |
| Completer.CompleteRereadsWildcard | google-cloud-sdk/lib/googlecloudsdk/core/remote_completion.py:406-446 | On a cache with nothing under the wildcard's directory, a wildcard completion misses, stores the fetched links, and re-reads. It answers with the union over the stored state's fresh branches, plus the fresh `global` sibling under `regions/`. It counts two tries, and one hit per record read minus the one taken back when it answers. |
| Completer.CompleteFromCache | google-cloud-sdk/lib/googlecloudsdk/core/remote_completion.py:411-412 | A fresh record answers with its matching names and one hit. Nothing is fetched or stored. |
| Completer.CompleteOnMiss | google-cloud-sdk/lib/googlecloudsdk/core/remote_completion.py:412-440 | A miss for a link without a wildcard answers with the fetched names that match and stores the fetched links. It counts no hit. |
| Completer.MissStoresRecord | google-cloud-sdk/lib/googlecloudsdk/core/remote_completion.py:412-440 | A miss that fetches one link leaves that link's record with the collection's expiry and counts no hit. |
| Completer.CompleteThenCached | google-cloud-sdk/lib/googlecloudsdk/core/remote_completion.py:411-440 | After a miss stores its one fetched link, the next completion before the timeout is answered from the cache. It fetches nothing and changes nothing. |
| Completer.CompleteFromSingleName | google-cloud-sdk/lib/googlecloudsdk/core/remote_completion.py:411-412 | A fresh record holding one name answers with that name when it matches the prefix. |
| ProjectionTree.DfsOrderingIsPreorder | google-cloud-sdk/lib/googlecloudsdk/core/resource/resource_projection_spec.py:124-135 | The accumulating walk appends exactly the `PROJECT` attributes of the subtree, in depth-first pre-order. |
| ProjectionTree.OrderingIsProjectedPreorder | google-cloud-sdk/lib/googlecloudsdk/core/resource/resource_projection_spec.py:117-139 | `_Ordering` is the `PROJECT` attributes of the tree in pre-order. |
| ProjectionTree.Projected | google-cloud-sdk/lib/googlecloudsdk/core/resource/resource_projection_spec.py:132-133 | An attribute is collected exactly when it is in the walk and flagged `PROJECT`. |
| ProjectionTree.DefaultsTree | google-cloud-sdk/lib/googlecloudsdk/core/resource/resource_projection_spec.py:91-100 | The root's flag becomes `DEFAULT` and its ordinal `None`. Order, label and alignment are kept, and the child keys are unchanged. |
| ProjectionTree.DefaultsPreorder | google-cloud-sdk/lib/googlecloudsdk/core/resource/resource_projection_spec.py:91-100 | Every node of the rewritten tree, in pre-order, is the original node reset. |
| ProjectionTree.DefaultsIdempotent | google-cloud-sdk/lib/googlecloudsdk/core/resource/resource_projection_spec.py:91-100 | Rewriting twice is rewriting once. |
| ProjectionTree.DefaultsOrderingEmpty | google-cloud-sdk/lib/googlecloudsdk/core/resource/resource_projection_spec.py:91-100 | A rewritten tree has no `PROJECT` node. |
| ProjectionSort.SortBy | google-cloud-sdk/lib/googlecloudsdk/core/resource/resource_projection_spec.py:311-313 | `sorted` returns a permutation of its input, ordered by key. |
| ProjectionSort.SortStable | google-cloud-sdk/lib/googlecloudsdk/core/resource/resource_projection_spec.py:311-313 | Elements with equal keys keep their relative order. |
| ProjectionSort.InsertWithKey | google-cloud-sdk/lib/googlecloudsdk/core/resource/resource_projection_spec.py:311-313 | An inserted element comes first among the elements with its key. |
| ProjectionSpec.New | google-cloud-sdk/lib/googlecloudsdk/core/resource/resource_projection_spec.py:63-89 | A new spec has no attributes, columns, name or empty node. With defaults, it takes their aliases and a default copy of their tree. Its symbols are the defaults' updated with the caller's, and an empty table counts as none. Without defaults, it has no tree and exactly the caller's symbols. |
| ProjectionSpec.NewIsDefault | google-cloud-sdk/lib/googlecloudsdk/core/resource/resource_projection_spec.py:77-79 | A spec built from defaults is already a default projection. It has no order, no labels and no alignments. |
| ProjectionSpec.Defaults | google-cloud-sdk/lib/googlecloudsdk/core/resource/resource_projection_spec.py:238-247 | The columns are dropped and every tree node is reset. Nothing else changes. |
| ProjectionSpec.DefaultsTwice | google-cloud-sdk/lib/googlecloudsdk/core/resource/resource_projection_spec.py:238-247 | `Defaults` is idempotent. |
| ProjectionSpec.AddAttribute | google-cloud-sdk/lib/googlecloudsdk/core/resource/resource_projection_spec.py:141-148 | The attribute is set to the value. Every other attribute and every other field is unchanged. |
| ProjectionSpec.DelAttribute | google-cloud-sdk/lib/googlecloudsdk/core/resource/resource_projection_spec.py:150-157 | The attribute is gone and the others are unchanged. It does nothing when the attribute is absent. |
| ProjectionSpec.DelUndoesAdd | google-cloud-sdk/lib/googlecloudsdk/core/resource/resource_projection_spec.py:141-157 | Deleting a freshly added attribute restores the spec. |
| ProjectionSpec.AddAfterDel | google-cloud-sdk/lib/googlecloudsdk/core/resource/resource_projection_spec.py:141-157 | Adding after deleting is the same as adding. |
| ProjectionSpec.AddAlias | google-cloud-sdk/lib/googlecloudsdk/core/resource/resource_projection_spec.py:159-166 | Only the named alias is set. Nothing else changes. |
| ProjectionSpec.AddKey | google-cloud-sdk/lib/googlecloudsdk/core/resource/resource_projection_spec.py:168-175 | Exactly one column is appended at the end, and the earlier columns are untouched. |
| ProjectionSpec.ColumnCounts | google-cloud-sdk/lib/googlecloudsdk/core/resource/resource_projection_spec.py:229-236 | Adding a key adds one to the column count. A default projection and a fresh spec have no columns. |
| ProjectionSpec.OrderingOf | google-cloud-sdk/lib/googlecloudsdk/core/resource/resource_projection_spec.py:117-139 | A spec without a tree raises `AttributeError`. Otherwise the ordering is the pre-order of the `PROJECT` attributes. |
| ProjectionSpec.Order | google-cloud-sdk/lib/googlecloudsdk/core/resource/resource_projection_spec.py:298-313 | The sort keys are the ordinals minus one of the entries that have an order, stably sorted by order. The result is `None` when there are no such entries. An ordered entry without an ordinal raises `TypeError`. |
| ProjectionSpec.OrderedEntriesSpec | google-cloud-sdk/lib/googlecloudsdk/core/resource/resource_projection_spec.py:311-313 | The entries `Order` reads are exactly the ordered entries, by non-decreasing order. Entries with the same order keep their depth-first order. |
| ProjectionSpec.Labels | google-cloud-sdk/lib/googlecloudsdk/core/resource/resource_projection_spec.py:277-286 | There is one label per projected column, in `(ordinal, order)` order, with a missing label read as `''`. The result is `None` exactly when every label is empty. |
| ProjectionSpec.Alignments | google-cloud-sdk/lib/googlecloudsdk/core/resource/resource_projection_spec.py:267-275 | There is one alignment per projected column, in the order of `Labels`. |
| ProjectionSpec.DefaultsProjectNothing | google-cloud-sdk/lib/googlecloudsdk/core/resource/resource_projection_spec.py:238-247 | After `Defaults`, `Order` and `Labels` are `None` and `Alignments` is empty. |

## Left out

- `CompletionProgressTracker` (`remote_completion.py:50-102`) is left out. It is a ticker thread with timed sleeps and `os.kill`, so it is concurrency and process control.
- `GetTickerStream`, `logging`, `properties` and `platforms` are left out. They are output and environment plumbing, and they do not affect what is cached or returned.
- `Iterate`, `Iter` and `SetGetInstanceFun` are left out. They are iterator and global-hook plumbing around functions outside this model.
- `ResourceIsCached` and the `ITEM_NAME_FUN` table are left out. The cache never consults them.
- The completer's command building is not modelled (`_OPTIONAL_PARMS`, `resources.Parse(...).WeakSelfLink()`). Neither is the list command's execution or the derivation of each item's self-link. The weak self-link and the fetched self-links are inputs, each either a value or the exception computing it raised.
- `resources.Parse` in `StoreInCache` is a parameter. It returns the collection, or nothing when the parser rejects the link.
- Real filesystem calls and the clock are replaced by the abstract `FileSystem` and an integer `now`. File permissions, symbolic links and `IOError` on reading an existing file are not modelled. `files.MakeDir` is modelled as `os.makedirs` that accepts an existing directory.
- CacheRead.GetAllMatches: recursion is bounded by a nesting depth of 1000 reads, standing for the interpreter's recursion limit. Deeper nesting is reported as a `RecursionLimit` error. Only a directory entry that itself contains `*` nests more than twice.
- CacheRead.WildcardRead: states the result only when no entry of the listed directory contains `*`. Such an entry makes the branch path a wildcard again.
- Completer.CompleteRereadsWildcard: states the answer only on a cache with no directory at the wildcard's head, where the first read is sure to miss, and with the same restriction on directory entries as `WildcardRead`.
- ProjectionSpec.Labels and ProjectionSpec.Alignments: Python 2 breaks ties in `(ordinal, order)` by comparing attribute objects, which is arbitrary. The model keeps tied columns in depth-first order.
- The `ALIGNMENTS` padding functions are not modelled. An alignment is an enumeration value.
- Attribute values are text and keys are lists of text. Their Python types beyond that are not modelled.
- The tree's children are in the order the tree's dictionary yields them. `StoreInCache` groups are in first-insertion order. Python 2 dictionary order is not modelled.
- The `_Tree` root is assumed truthy, so `Defaults` always visits it.
- `_snake_headings`, `_snake_re`, `_Print`/`Print` and the getters and setters (`SetName`, `GetRoot`, `SetRoot`, `GetEmpty`, `SetEmpty`, `Columns`, `Aliases`, `Attributes`, `Name`, `Tree`) are not modelled as operations. They are fields of the `Spec` datatype or output formatting.
- `copy.deepcopy` is implicit: every value in the model is immutable.
