# homepage-discovery reconcile, modelled in Dafny

The homepage-discovery controller watches Kubernetes Services. Each Service that carries
`gethomepage.dev/*` annotations becomes a link on the homepage dashboard. On every
change notification the controller:

1. extracts one record per enabled Service (`Extractor`);
2. groups the records by their group annotation, marks each group as owned, and sorts
   each group by name (`Collector`, `Controller.Controller.Collect`);
3. rewrites `services.yaml` in the homepage ConfigMap (`Merger`). Blocks of groups it does
   not own are kept. Blocks of owned groups are dropped. One fresh block is appended per
   discovered group;
4. writes nothing when the re-encoded text equals the stored text. Otherwise it also adds
   a default layout item to `settings.yaml` for every discovered group that no layout
   item names yet (`Layout`), and the
   ConfigMap is written (`Controller.UpdateConfigMap`);
5. decides whether to restart the homepage Deployment.

Files and modules:

- `wrappers.dfy`: `Option`.
- `byte_order.dfy`: Go's `<` on strings. Go compares the UTF-8 bytes. UTF-8 keeps the
  order of code points, so the model compares characters lexicographically.
- `homepage.dfy`: annotation keys, records, the two YAML documents, and `IsEnumeration`
  (one run of Go's randomised map iteration).
- `extractor.dfy`, `collector.dfy`, `merger.dfy`, `layout.dfy`, `controller.dfy`: the
  steps above. The ownership set is the field `owned` of class `Controller.Controller`.
- `entry_yaml.dfy`: how one services.yaml entry decodes into the `ServiceEntry` struct and
  is written back from it. This fixes what a `Document` can hold.

How the model handles Go's behaviour:

- **Map iteration order.** Go iterates maps in random order. The methods choose the next
  key with `:|` and return the order they used as a ghost out-parameter. The specification
  functions (`Merger.Merged`, `Layout.SyncSettings`, `Controller.NextConfigMap`) take that
  order as a parameter. No fixed order is claimed. `Merger.IterationOrderIsVisible` shows
  that the order reaches the document.
- **Sorting.** `sort.Slice` is not stable. `Collector.SortByName` is an insertion sort on
  an array. It promises only that the result is ordered by name and is a permutation of
  its input.
- **YAML.** The YAML library is a `Codec` value. Its decoders may fail and its encoders
  are total. The write gate compares the encoded text with the stored text, as the code
  does. A `Document` holds decoded `ServiceEntry` values, so it carries only description,
  href and icon. `EntryYaml` shows what that decode drops from a stored entry.
- **Multi-key blocks.** The filter loop appends a block once for each of its keys that is
  not owned. The model keeps this behaviour (`Merger.Kept`). Results that need the usual
  one-group-per-block shape say so in their `requires`.
- **Weight.** `gethomepage.dev/weight` is never read, so `weight` is always 0.

Where the code's behaviour departs from what it evidently intends, the model follows the code:

- The restart runs after every reconcile in which `updateConfigMap` returns no error. This
  includes runs that wrote nothing (see Findings).
- Sorting is unstable, not stable.
- Blocks with several groups are repeated, not kept once.
- A `settings.yaml` that fails to parse only produces a warning. The services update
  still goes ahead.

## Model

| member | source | states |
|---|---|---|
| `Extractor.Extract` | apps/homepage-discovery/main.go:162-188 | A Service yields a record iff its enabled annotation is exactly "true" and its href is non-empty. An empty name falls back to the Service name. An empty group falls back to "Discovered". Description, icon and href are copied verbatim. Weight is 0. |
| `Collector.GroupOfIsPartition` | apps/homepage-discovery/main.go:160-191 | A group is a key of the collected map iff some record names it. Its sequence is exactly that group's records, in list order. |
| `Collector.InGroupMembers` | apps/homepage-discovery/main.go:190-191 | A record is in group g's sequence iff it was collected and its group is g. |
| `Collector.GroupedGroups` | apps/homepage-discovery/main.go:184-191 | Every group of the collected map is non-empty. It holds only records of that group that were extracted from the Services. |
| `Collector.SkippedServiceAddsNothing` | apps/homepage-discovery/main.go:162-188 | A skipped Service adds no record and no group. |
| `Collector.SortByName` | apps/homepage-discovery/main.go:198-200 | After sorting in place, the array is ordered by name (no later name is below an earlier one) and is a permutation of the original. |
| `Collector.InsertByName` | apps/homepage-discovery/main.go:198-200 | One insertion step: the prefix up to `i` becomes sorted and is a permutation of the old prefix. The elements after `i` are unchanged. |
| `Collector.SortGroups` | apps/homepage-discovery/main.go:196-201 | The groups are the same after the sort loop, whatever order it visits them in. Each group is sorted by name and is a permutation of what was collected. |
| `Collector.SortOrdersDistinctNames` | apps/homepage-discovery/main.go:196-201 | With distinct names, sorting decides the order: records b then a, with a < b, come out as a then b. |
| `Merger.FilterOwned` | apps/homepage-discovery/main.go:233-241 | The filter loop's output equals `Kept`: each previous block, once per key that is not owned. |
| `Merger.KeepPerForeignKey` | apps/homepage-discovery/main.go:236-240 | The inner loop appends one block once per unowned key, whatever order it visits the keys in. |
| `Merger.BuildEntries` | apps/homepage-discovery/main.go:245-255 | Each entry maps the service's name, and only that name, to its description, href and icon, in group order. |
| `Merger.AppendGroups` | apps/homepage-discovery/main.go:243-261 | For some enumeration of the discovered groups, the output is the filtered document followed by one fresh block per group that has entries. |
| `Merger.Merge` | apps/homepage-discovery/main.go:233-261 | The next document is `Merged(prev, owned, discovered, order)` for the iteration order the run used. |
| `Merger.KeptIffForeign` | apps/homepage-discovery/main.go:234-241 | Ownership isolation: a block survives the filter iff it was in the previous document and has a group that is not owned. Survivors are unchanged as decoded blocks, which hold only description, href and icon (see `EntryYaml.RewriteKeepsExactlyCanonical`). |
| `Merger.KeptIsForeignInOrder` | apps/homepage-discovery/main.go:234-241 | When no block has two unowned groups, the kept blocks are the unowned previous blocks, each once, in their original order. |
| `Merger.MultiGroupBlockIsDuplicated` | apps/homepage-discovery/main.go:235-240 | Every block with exactly two unowned groups is kept twice. |
| `Merger.AppendedOccurrences` | apps/homepage-discovery/main.go:243-261 | Each visited group with entries is in exactly one appended block, its fresh block. Groups not visited, or without entries, are in none. |
| `Merger.AppendedBlockShape` | apps/homepage-discovery/main.go:256-260 | Every appended block is the single-group block `{g: entries}` of a visited group that has entries. |
| `Merger.EntriesInNameOrder` | apps/homepage-discovery/main.go:245-255 | The entries of a sorted group appear in name order. |
| `Merger.MergedKeepsForeignInOrder` | apps/homepage-discovery/main.go:233-261 | The merged document is the unowned previous blocks in original order, then the fresh blocks. All kept blocks come before every new block. |
| `Merger.MergedOwnedGroups` | apps/homepage-discovery/main.go:233-261 | For single-group blocks, each discovered group is in exactly one block of the result, its fresh one. An owned group with no records this run is in no block. |
| `Merger.KeptTwice` | apps/homepage-discovery/main.go:234-241 | Filtering an already filtered document changes nothing, when no block has two unowned groups. |
| `Merger.AppendedIsDropped` | apps/homepage-discovery/main.go:234-260 | Fresh blocks carry owned groups only, so the next filter drops them all. |
| `Merger.RemergeReplacesFresh` | apps/homepage-discovery/main.go:233-261 | When no block has two unowned groups, merging the merged document again over the same groups gives what one merge in the second run's order gives. The first run's fresh blocks are all dropped. |
| `Merger.MergeIdempotent` | apps/homepage-discovery/main.go:233-261 | Merging the merged document again, with the same groups and iteration order, gives the same document. |
| `Merger.MultiGroupBlockGrows` | apps/homepage-discovery/main.go:235-240 | As written, a block with two unowned groups becomes four copies after two filters. The second merge is two blocks longer than the first, though the groups are the same. |
| `Merger.ForeignTwice` | apps/homepage-discovery/main.go:234-241 | The intended filter, each block with an unowned group once, is idempotent on every document. |
| `Merger.MergedOnceIdempotent` | apps/homepage-discovery/main.go:233-261 | With the intended filter, a second merge with the same groups and order changes nothing, with no condition on the blocks. |
| `Merger.ReorderedRemergeDiffers` | apps/homepage-discovery/main.go:243-261 | As written, merging again with two groups visited in the other order gives a different document. |
| `Merger.AscendingKeys` | apps/homepage-discovery/main.go:243-244 | The groups can always be visited in strictly ascending order: the order is an enumeration of the keys. |
| `Merger.AscendingEnumerationUnique` | apps/homepage-discovery/main.go:243-244 | Any two strictly ascending enumerations of the same groups are equal, so a loop that visits groups in ascending order is the same in every run. |
| `Merger.AscendingMergeIsDeterministic` | apps/homepage-discovery/main.go:243-261 | With the groups visited in ascending order, two runs over the same input give the same document. |
| `Merger.IterationOrderIsVisible` | apps/homepage-discovery/main.go:244-261 | Two non-empty groups visited in different orders give different documents. |
| `Merger.ReplacesOwnedGroup` | apps/homepage-discovery/main.go:233-261 | `[{A: [{x: /x}]}]` with A owned and service y discovered in A becomes `[{A: [{y: /y}]}]`. |
| `Layout.ExistingGroups` | apps/homepage-discovery/main.go:308-316 | The set built by the loop is the set of keys of every mapping item of the layout. |
| `Layout.AppendMissing` | apps/homepage-discovery/main.go:318-330 | The existing items are an unchanged prefix. For some enumeration of the groups, one default item is appended per group not already present. `modified` holds iff something was appended. |
| `Layout.UpdateSettingsLayout` | apps/homepage-discovery/main.go:292-341 | An empty settings text is left untouched. So is a missing or non-list `layout`, or nothing to add. A parse failure is reported. Otherwise the text is re-encoded with only `layout` extended. |
| `Layout.MissingNamesMissingGroups` | apps/homepage-discovery/main.go:318-330 | The appended items name exactly the visited groups that were missing. |
| `Layout.MissingCount` | apps/homepage-discovery/main.go:318-330 | The number of appended items equals the number of distinct visited groups that were missing. |
| `Layout.SyncCoversGroups` | apps/homepage-discovery/main.go:308-330 | After the sync, the layout names every discovered group. Exactly one item was added per group that was missing. |
| `Layout.SyncTwiceAddsNothing` | apps/homepage-discovery/main.go:308-330 | A second sync with the same groups, in any order, appends nothing. |
| `Layout.SecondSyncLeavesSettings` | apps/homepage-discovery/main.go:292-341 | Once settings.yaml has been rewritten, a second sync with the same groups leaves it untouched, provided the codec reads back what it writes. |
| `Controller.UpdateConfigMap` | apps/homepage-discovery/main.go:224-281 | The outcome is `NextConfigMap` for the iteration orders used. A parse failure writes nothing. Equal text writes nothing and skips the layout sync. Otherwise services.yaml is replaced and settings.yaml is replaced only if the layout changed. |
| `Controller.WriteGateIsDocumentChange` | apps/homepage-discovery/main.go:269-281 | When the stored text is the encoding of its document and encoding is injective, a write happens iff the merged document differs from the previous one. |
| `Controller.WriteTouchesTwoKeys` | apps/homepage-discovery/main.go:275-281 | A write changes the services.yaml text and possibly settings.yaml. Every other ConfigMap key keeps its value. |
| `Controller.SecondRunWritesNothing` | apps/homepage-discovery/main.go:233-273 | After a run that wrote, a run with the same Services and merge order writes nothing, whatever the layout order. |
| `Controller.MultiGroupBlockWritesEveryRun` | apps/homepage-discovery/main.go:233-281 | As written, a stored block with two unowned groups makes the first run write, and the next run over the same Services and merge order writes again. |
| `Controller.ReorderedRunWrites` | apps/homepage-discovery/main.go:243-281 | As written, after a run that wrote, a run that visits the two discovered groups in the other order writes again, though no Service changed. |
| `Controller.RestartWithoutChange` | apps/homepage-discovery/main.go:203-214 | As written, that second run writes nothing and still restarts homepage when restarts are enabled. |
| `Controller.RestartOnChange` | apps/homepage-discovery/main.go:209-214 | Corrected rule: a restart happens only after a write. |
| `Controller.NoRestartWithoutChange` | apps/homepage-discovery/main.go:209-214 | Under the corrected rule, the second run does not restart. |
| `EntryYaml.FieldText` | apps/homepage-discovery/main.go:37-41 | A string field is empty for a missing key or a null. It is the text of a scalar, and a list or mapping makes the decode fail. |
| `EntryYaml.EncodeEntry` | apps/homepage-discovery/main.go:37-41 | An encoded entry has only the three tagged keys. It always has href, and has description and icon iff they are not empty (`omitempty`). |
| `EntryYaml.EntryRoundTrip` | apps/homepage-discovery/main.go:37-41 | Every entry the program writes decodes back to itself. |
| `EntryYaml.DecodeIgnoresOtherKeys` | apps/homepage-discovery/main.go:226-228 | Adding or changing any key other than description, href and icon does not change the decoded entry. |
| `EntryYaml.RewriteKeepsExactlyCanonical` | apps/homepage-discovery/main.go:226-264 | A stored entry that decodes is written back unchanged iff it has only the three tagged keys, a string href, and a non-empty string description and icon where present. |
| `EntryYaml.WidgetIsDropped` | apps/homepage-discovery/main.go:226-264 | An entry `{href: /x, widget: {}}` decodes to href "/x" and is written back as `{href: /x}`. |
| `Controller.Controller.constructor` | apps/homepage-discovery/main.go:75-81 | A new controller owns no group. |
| `Controller.Controller.Collect` | apps/homepage-discovery/main.go:159-194 | The collected map is `Grouped(services)`. The owned set becomes its old value plus every collected group. It only grows. |
| `Controller.Controller.HandleServiceChange` | apps/homepage-discovery/main.go:149-215 | Ownership grows by this run's groups. The groups passed on are sorted permutations of the collected ones. The outcome is `NextConfigMap` for the orders used. The restart follows the code's rule. |

## Findings

| source | as written | input that shows it | evidently intended | confidence | as-written member | corrected member |
|---|---|---|---|---|---|---|
| apps/homepage-discovery/main.go:234-241 | The filter appends a previous block once for each of its groups that is not owned. | A stored block `{A: [...], B: [...]}` with A and B not owned, and a reconcile with the same Services each time. The block becomes 2, then 4 copies, and every run writes the ConfigMap. | Keep each block that has a group the controller does not own, once. | not executed | `Controller.MultiGroupBlockWritesEveryRun` | `Merger.MergedOnceIdempotent` |
| apps/homepage-discovery/main.go:243-261 | The fresh blocks follow Go's random map iteration order. | Two discovered groups A and B, and two reconciles with the same Services, the first visiting A then B and the second B then A. The second run writes a reordered document. | Visit the groups in a fixed (sorted) order, so that an unchanged input gives unchanged text. | not executed | `Controller.ReorderedRunWrites` | `Merger.AscendingEnumerationUnique` |
| apps/homepage-discovery/main.go:203-214 | `restartHomepagePod` runs whenever `updateConfigMap` returns nil. The "No changes to services.yaml" path (lines 270-273) returns nil too. | Restarts enabled, and a second reconcile over the same Services with the same merge order. It writes nothing and still restarts homepage. Every informer resync (every 30 s) is such a run. | Restart only when the ConfigMap was written. | not executed | `Controller.RestartWithoutChange` | `Controller.NoRestartWithoutChange` |

`Controller.Controller.HandleServiceChange` keeps the code's rule (`RestartAsWritten`), because
it models the program as it is. `Controller.RestartOnChange` is the corrected rule, and
`Controller.NoRestartWithoutChange` proves it quiet on the second run.

In the same way, the merge keeps the code's filter (`Merger.Kept`) and its random group order.
`Merger.MergedOnce` uses the intended filter (`Merger.Foreign`). `Merger.MergedKeepsForeignInOrder`
shows that the two agree when no block has two unowned groups. `Merger.AscendingKeys` is the
intended visiting order.

## Left out

- `main`, `createClient`, `getEnv` (lines 60-147): process start-up, environment
  variables, kubeconfig and signal handling.
- Informer set-up and event callbacks (lines 84-115). Reconciles are modelled as serial
  calls, so concurrency is left out.
- Kubernetes API calls: the Service `List` (153), ConfigMap `Get`/`Update` (219, 283) and
  the Deployment `Patch` in `restartHomepagePod` (344-377). Their failures (lines
  154-157, 220-222, 284-286, 371-373) are network I/O. The Services and the ConfigMap data
  are parameters instead, and the restart is a boolean result.
- `yaml.Unmarshal`/`yaml.Marshal` (228, 264, 299, 334) are abstract in `Codec`. Marshal
  failures (265-267, 335-337) are not modelled, because the encoders are total. YAML
  values other than null, string, integer, list and string-keyed mapping are not
  distinguished. They are carried through untouched either way.
- A ConfigMap whose `Data` map is nil makes the Go assignment at line 276 panic. The model's
  data is a map value and does not capture that.
- Logging with `fmt.Printf`: it only makes the run observable.
- The sort algorithm: Go's `sort.Slice` is pattern-defeating quicksort, and the model uses
  insertion sort. Only the outcome (sorted by name, a permutation) is modelled. The tie
  order of equal names is not.
- `Merger.MergedOwnedGroups`: stated for documents whose blocks have at most one group. A
  multi-group block with an unowned group keeps any owned groups it also carries.
- `Merger.MergeIdempotent`, `Controller.SecondRunWritesNothing`: stated for the same merge
  iteration order in both runs. With different orders the document differs
  (`Merger.IterationOrderIsVisible`), so the write gate can fire when nothing changed
  (`Controller.ReorderedRunWrites`, see Findings).
- `Merger.MergeIdempotent`: stated only when no previous block has two groups that are not
  owned. Such a block doubles on every merge (`Merger.MultiGroupBlockGrows`).
- `Controller.SecondRunWritesNothing`: stated only when no stored block has two groups that
  are not owned. With such a block every run writes (`Controller.MultiGroupBlockWritesEveryRun`).
- `Controller.RestartWithoutChange`: same restriction as `Controller.SecondRunWritesNothing`,
  which it builds on.
- `Controller.NoRestartWithoutChange`: same restriction as `Controller.SecondRunWritesNothing`,
  which it builds on.
- `Merger.MergedKeepsForeignInOrder`: stated only when no previous block has two groups that
  are not owned. Otherwise each such block is repeated once per such group.
- `Merger.KeptTwice`: stated only when no previous block has two groups that are not owned,
  for the same reason.
- `Merger.RemergeReplacesFresh`: stated only when no previous block has two groups that are
  not owned, for the same reason.
- `Merger.KeptIffForeign`: foreign blocks are unchanged only as decoded values. The program
  decodes every entry into `ServiceEntry` (main.go:226-228), which has only description, href
  and icon. The first write therefore drops every other key of a foreign entry (widget, ping,
  siteMonitor, ...), as well as an empty description or icon and a null field
  (`EntryYaml.RewriteKeepsExactlyCanonical`). Ownership isolation holds for those three
  fields only. The abstract `Codec` does not connect the stored text to `EntryYaml`.
- `EntryYaml.FieldText`: an integer scalar is read as its decimal text. yaml.v3 keeps the
  scalar's source text, which differs for literals such as `0x10` or `007`. Booleans and
  floats are not distinguished in `Value`.
