/** The merge of updateConfigMap: previous services.yaml blocks whose group is
    not owned are kept, owned ones are dropped, and one fresh block per
    discovered group is appended. */
module Merger {

  import opened Homepage
  import opened ByteOrder
  import opened Collector

  /** `n` copies of one block. */
  function Repeat(b: Block, n: nat): Document
  {
    seq(n, _ => b)
  }

  /** What the filter loop keeps: each previous block is appended once per
      key of it that is not owned, so a block with several foreign keys is
      repeated and a block with no keys vanishes. */
  function Kept(prev: Document, owned: set<string>): Document
  {
    if prev == [] then []
    else Copies(prev[0], owned) + Kept(prev[1..], owned)
  }

  /** The copies of one previous block that the filter keeps. */
  function Copies(b: Block, owned: set<string>): Document
  {
    Repeat(b, |b.Keys - owned|)
  }

  /** A reference definition: the previous blocks that have a foreign
      group, each once, in their original order. */
  function Foreign(prev: Document, owned: set<string>): Document
  {
    if prev == [] then []
    else (if prev[0].Keys - owned != {} then [prev[0]] else []) + Foreign(prev[1..], owned)
  }

  /** Every block has at most one group that is not owned; true of the
      singleton blocks services.yaml is written with. */
  predicate AtMostOneForeignKey(prev: Document, owned: set<string>)
  {
    forall i, x, y :: 0 <= i < |prev| && x in prev[i] && y in prev[i] && x !in owned && y !in owned ==> x == y
  }

  /** Every block has at most one group. */
  predicate SingleKeyBlocks(doc: Document)
  {
    forall i, x, y :: 0 <= i < |doc| && x in doc[i] && y in doc[i] ==> x == y
  }

  /** `name -> {description, href, icon}` for one discovered service. */
  function EntryOf(ds: DiscoveredService): Entry
  {
    map[ds.name := ServiceEntry(ds.description, ds.href, ds.icon)]
  }

  /** The entries of one group, in the group's order. */
  function Entries(group: seq<DiscoveredService>): seq<Entry>
  {
    seq(|group|, k requires 0 <= k < |group| => EntryOf(group[k]))
  }

  /** The fresh block written for group `g`. */
  function BlockFor(discovered: Grouping, g: string): Block
    requires g in discovered
  {
    map[g := Entries(discovered[g])]
  }

  /** The blocks the second loop appends, visiting the groups in `order`;
      a group with no entries gets no block. */
  function Appended(discovered: Grouping, order: seq<string>): Document
    requires forall g :: g in order ==> g in discovered
  {
    if order == [] then []
    else
      var g := order[|order| - 1];
      Appended(discovered, order[..|order| - 1]) + if |Entries(discovered[g])| > 0 then [BlockFor(discovered, g)] else []
  }

  /** The next services.yaml document. */
  function Merged(prev: Document, owned: set<string>, discovered: Grouping, order: seq<string>): Document
    requires forall g :: g in order ==> g in discovered
  {
    Kept(prev, owned) + Appended(discovered, order)
  }

  /** How many blocks carry group `g`. */
  function Occurrences(doc: Document, g: string): nat
  {
    if doc == [] then 0
    else Occurrences(doc[..|doc| - 1], g) + if g in doc[|doc| - 1] then 1 else 0
  }

  // ---------------------------------------------------------------------------
  // The loops of updateConfigMap

  /** The filter loop over the previous document. */
  method FilterOwned(prev: Document, owned: set<string>) returns (filtered: Document)
    ensures filtered == Kept(prev, owned)
  {
    filtered := [];
    var i := 0;
    while i < |prev|
      invariant 0 <= i <= |prev|
      invariant Kept(prev, owned) == filtered + Kept(prev[i..], owned)
    {
      KeptSuffix(prev, i, owned);
      AppendAssoc(filtered, Copies(prev[i], owned), Kept(prev[i + 1..], owned));
      filtered := KeepPerForeignKey(filtered, prev[i], owned);
      i := i + 1;
    }
  }

  /** The inner loop over one block's keys, in map order: the block is
      appended once for each key that is not owned. */
  method KeepPerForeignKey(filtered: Document, block: Block, owned: set<string>) returns (r: Document)
    ensures r == filtered + Repeat(block, |block.Keys - owned|)
  {
    r := filtered;
    var keys := block.Keys;
    ghost var visited: set<string> := {};
    ghost var n := 0;
    while keys != {}
      invariant keys !! visited && keys + visited == block.Keys
      invariant n == |visited - owned|
      invariant r == filtered + Repeat(block, n)
      decreases |keys|
    {
      var g :| g in keys;
      ForeignCountStep(visited, g, owned);
      if g !in owned {
        OneMoreCopy(filtered, block, n);
        r, n := r + [block], n + 1;
      }
      keys, visited := keys - {g}, visited + {g};
    }
  }

  /** The inner loop that turns a sorted group into its entry list. */
  method BuildEntries(group: seq<DiscoveredService>) returns (entries: seq<Entry>)
    ensures |entries| == |group|
    ensures forall k :: 0 <= k < |group| ==>
      entries[k].Keys == {group[k].name} &&
      entries[k][group[k].name] == ServiceEntry(group[k].description, group[k].href, group[k].icon)
    ensures entries == Entries(group)
  {
    entries := [];
    var i := 0;
    while i < |group|
      invariant 0 <= i <= |group|
      invariant entries == Entries(group[..i])
    {
      var svc := group[i];
      entries := entries + [map[svc.name := ServiceEntry(svc.description, svc.href, svc.icon)]];
      i := i + 1;
    }
    assert group[..|group|] == group;
  }

  /** The loop over `discovered` that appends one block per group with
      entries, in whatever order the map is iterated. */
  method AppendGroups(filtered: Document, discovered: Grouping) returns (doc: Document, ghost order: seq<string>)
    ensures IsEnumeration(order, discovered.Keys)
    ensures doc == filtered + Appended(discovered, order)
  {
    doc, order := filtered, [];
    var remaining := discovered.Keys;
    while remaining != {}
      invariant remaining <= discovered.Keys
      invariant forall g :: g in order <==> g in discovered.Keys - remaining
      invariant forall i, j :: 0 <= i < j < |order| ==> order[i] != order[j]
      invariant doc == filtered + Appended(discovered, order)
      decreases |remaining|
    {
      var g :| g in remaining;
      assert g !in order;
      AppendedStep(filtered, discovered, order, g);
      var entries := BuildEntries(discovered[g]);
      if |entries| > 0 {
        doc := doc + [map[g := entries]];
      }
      order := order + [g];
      remaining := remaining - {g};
    }
  }

  lemma AppendedStep(filtered: Document, discovered: Grouping, order: seq<string>, g: string)
    requires forall h :: h in order ==> h in discovered
    requires g in discovered
    ensures filtered + Appended(discovered, order + [g])
         == (filtered + Appended(discovered, order)) + if |Entries(discovered[g])| > 0 then [BlockFor(discovered, g)] else []
  {
    assert (order + [g])[..|order|] == order;
  }

  /** Lines 233-261 of updateConfigMap: the next document, for the map
      iteration order the run happened to use. */
  method Merge(prev: Document, owned: set<string>, discovered: Grouping) returns (doc: Document, ghost order: seq<string>)
    ensures IsEnumeration(order, discovered.Keys)
    ensures doc == Merged(prev, owned, discovered, order)
  {
    var filtered := FilterOwned(prev, owned);
    doc, order := AppendGroups(filtered, discovered);
  }

  // ---------------------------------------------------------------------------
  // What the merge keeps of the previous document

  lemma AppendAssoc(c: Document, x: Document, y: Document)
    ensures c + (x + y) == (c + x) + y
  {
  }

  lemma OneMoreCopy(d: Document, b: Block, n: nat)
    ensures d + Repeat(b, n + 1) == (d + Repeat(b, n)) + [b]
  {
    assert Repeat(b, n + 1) == Repeat(b, n) + [b];
    AppendAssoc(d, Repeat(b, n), [b]);
  }

  lemma ForeignCountStep(visited: set<string>, g: string, owned: set<string>)
    requires g !in visited
    ensures |(visited + {g}) - owned| == |visited - owned| + if g in owned then 0 else 1
  {
    if g in owned {
      assert (visited + {g}) - owned == visited - owned;
    } else {
      assert (visited + {g}) - owned == (visited - owned) + {g};
    }
  }

  lemma KeptSuffix(prev: Document, i: nat, owned: set<string>)
    requires i < |prev|
    ensures Kept(prev[i..], owned) == Copies(prev[i], owned) + Kept(prev[i + 1..], owned)
  {
    assert prev[i..][1..] == prev[i + 1..];
  }

  lemma KeptCons(a: Document, b: Document, owned: set<string>)
    requires a != []
    ensures Kept(a + b, owned) == Copies(a[0], owned) + Kept(a[1..] + b, owned)
  {
    assert (a + b)[0] == a[0] && (a + b)[1..] == a[1..] + b;
  }

  lemma {:induction false} KeptAppend(a: Document, b: Document, owned: set<string>)
    ensures Kept(a + b, owned) == Kept(a, owned) + Kept(b, owned)
  {
    if a == [] {
      assert a + b == b;
    } else {
      KeptAppend(a[1..], b, owned);
      KeptCons(a, b, owned);
      AppendAssoc(Copies(a[0], owned), Kept(a[1..], owned), Kept(b, owned));
    }
  }

  /** Ownership isolation: a previous block survives the filter iff it has
      a group that is not owned; a survivor is the previous block, unchanged. */
  lemma {:induction false} KeptIffForeign(prev: Document, owned: set<string>)
    ensures forall b :: b in Kept(prev, owned) <==> b in prev && b.Keys - owned != {}
  {
    if prev != [] {
      var first := prev[0];
      KeptIffForeign(prev[1..], owned);
      assert prev == [first] + prev[1..];
      var rep := Repeat(first, |first.Keys - owned|);
      if first.Keys - owned != {} {
        assert |first.Keys - owned| > 0 && rep[0] == first;
      }
    }
  }

  lemma AtMostOneElement(s: set<string>)
    requires forall x, y :: x in s && y in s ==> x == y
    ensures |s| <= 1
  {
    if s != {} {
      var x :| x in s;
      assert s == {x};
    }
  }

  /** When no block carries two foreign groups, the filter is the plain
      filter: the foreign blocks, each once, in their original order. */
  lemma {:induction false} KeptIsForeignInOrder(prev: Document, owned: set<string>)
    requires AtMostOneForeignKey(prev, owned)
    ensures Kept(prev, owned) == Foreign(prev, owned)
  {
    if prev != [] {
      var b := prev[0];
      assert AtMostOneForeignKey(prev[1..], owned) by {
        forall i, x, y | 0 <= i < |prev[1..]| && x in prev[1..][i] && y in prev[1..][i] && x !in owned && y !in owned
          ensures x == y
        {
          assert prev[1..][i] == prev[i + 1];
        }
      }
      KeptIsForeignInOrder(prev[1..], owned);
      AtMostOneElement(b.Keys - owned);
      assert Repeat(b, |b.Keys - owned|) == if b.Keys - owned != {} then [b] else [];
    }
  }

  /** A block with two foreign groups is kept once per group, so twice. */
  lemma MultiGroupBlockIsDuplicated(b: Block, owned: set<string>)
    requires |b.Keys - owned| == 2
    ensures Kept([b], owned) == [b, b]
  {
    assert [b][1..] == [];
    assert Kept([b], owned) == Repeat(b, 2);
    assert Repeat(b, 2) == [b, b];
  }

  lemma {:induction false} KeptFixpoint(doc: Document, owned: set<string>)
    requires forall k :: 0 <= k < |doc| ==> |doc[k].Keys - owned| == 1
    ensures Kept(doc, owned) == doc
  {
    if doc != [] {
      KeptFixpoint(doc[1..], owned);
      assert doc == [doc[0]] + doc[1..];
    }
  }

  lemma KeptNothingOwned(doc: Document, owned: set<string>)
    requires forall k :: 0 <= k < |doc| ==> doc[k].Keys <= owned
    ensures Kept(doc, owned) == []
  {
    KeptIffForeign(doc, owned);
  }

  // ---------------------------------------------------------------------------
  // What the merge appends

  lemma {:induction false} OccurrencesAppend(a: Document, b: Document, g: string)
    ensures Occurrences(a + b, g) == Occurrences(a, g) + Occurrences(b, g)
  {
    if b == [] {
      assert a + b == a;
    } else {
      OccurrencesAppend(a, b[..|b| - 1], g);
      assert (a + b)[..|a + b| - 1] == a + b[..|b| - 1];
    }
  }

  lemma {:induction false} NoOccurrences(doc: Document, g: string)
    requires forall k :: 0 <= k < |doc| ==> g !in doc[k]
    ensures Occurrences(doc, g) == 0
  {
    if doc != [] {
      NoOccurrences(doc[..|doc| - 1], g);
    }
  }

  /** The appended blocks: a group of `order` that has entries is in exactly
      one block, its fresh one; no other group is in any. */
  lemma {:induction false} AppendedOccurrences(discovered: Grouping, order: seq<string>)
    requires forall g :: g in order ==> g in discovered
    requires forall i, j :: 0 <= i < j < |order| ==> order[i] != order[j]
    ensures forall g :: g in order && discovered[g] != [] ==>
      Occurrences(Appended(discovered, order), g) == 1 && BlockFor(discovered, g) in Appended(discovered, order)
    ensures forall g :: g !in order || (g in discovered && discovered[g] == []) ==>
      Occurrences(Appended(discovered, order), g) == 0
  {
    if order != [] {
      var init, h := order[..|order| - 1], order[|order| - 1];
      assert order == init + [h];
      AppendedOccurrences(discovered, init);
      var tail := if |Entries(discovered[h])| > 0 then [BlockFor(discovered, h)] else [];
      assert tail != [] ==> tail[..0] == [];
      forall g
        ensures Occurrences(Appended(discovered, order), g)
             == Occurrences(Appended(discovered, init), g) + (if g == h && discovered[h] != [] then 1 else 0)
      {
        OccurrencesAppend(Appended(discovered, init), tail, g);
      }
    }
  }

  /** Every appended block is the fresh block of a group of `order` that has
      entries. */
  lemma {:induction false} AppendedBlockShape(discovered: Grouping, order: seq<string>)
    requires forall g :: g in order ==> g in discovered
    ensures forall k, g :: 0 <= k < |Appended(discovered, order)| && g in Appended(discovered, order)[k] ==>
      g in order && discovered[g] != [] && Appended(discovered, order)[k] == BlockFor(discovered, g)
  {
    if order != [] {
      var init, h := order[..|order| - 1], order[|order| - 1];
      assert order == init + [h];
      AppendedBlockShape(discovered, init);
      var r := Appended(discovered, order);
      forall k, g | 0 <= k < |r| && g in r[k]
        ensures g in order && discovered[g] != [] && r[k] == BlockFor(discovered, g)
      {
        if k < |Appended(discovered, init)| {
          assert r[k] == Appended(discovered, init)[k];
        } else {
          assert |Entries(discovered[h])| > 0 && r[k] == BlockFor(discovered, h);
        }
      }
    }
  }

  /** The entries of a sorted group come out in name order. */
  lemma EntriesInNameOrder(group: seq<DiscoveredService>)
    requires SortedByName(group)
    ensures forall p, q, x, y :: 0 <= p < q < |group| && x in Entries(group)[p] && y in Entries(group)[q] ==> !Less(y, x)
  {
  }

  // ---------------------------------------------------------------------------
  // The merged document

  /** Foreign blocks first, unchanged and in their original order, then the
      fresh blocks. */
  lemma MergedKeepsForeignInOrder(prev: Document, owned: set<string>, discovered: Grouping, order: seq<string>)
    requires forall g :: g in order ==> g in discovered
    requires AtMostOneForeignKey(prev, owned)
    ensures Merged(prev, owned, discovered, order) == Foreign(prev, owned) + Appended(discovered, order)
  {
    KeptIsForeignInOrder(prev, owned);
  }

  /** Owned groups are rewritten: each discovered group is in exactly one
      block, its fresh one; an owned group with no entities this run is in
      no block at all. */
  lemma MergedOwnedGroups(prev: Document, owned: set<string>, discovered: Grouping, order: seq<string>)
    requires IsEnumeration(order, discovered.Keys) && discovered.Keys <= owned
    requires SingleKeyBlocks(prev)
    ensures forall g :: g in discovered && discovered[g] != [] ==>
      Occurrences(Merged(prev, owned, discovered, order), g) == 1 &&
      BlockFor(discovered, g) in Merged(prev, owned, discovered, order)
    ensures forall g :: g in owned && (g !in discovered || discovered[g] == []) ==>
      Occurrences(Merged(prev, owned, discovered, order), g) == 0
  {
    var kept := Kept(prev, owned);
    KeptIffForeign(prev, owned);
    AppendedOccurrences(discovered, order);
    forall g | g in owned
      ensures Occurrences(Merged(prev, owned, discovered, order), g) == Occurrences(Appended(discovered, order), g)
    {
      forall k | 0 <= k < |kept|
        ensures g !in kept[k]
      {
        assert kept[k] in kept;
        var i :| 0 <= i < |prev| && prev[i] == kept[k];
        var x :| x in kept[k].Keys - owned;
      }
      NoOccurrences(kept, g);
      OccurrencesAppend(kept, Appended(discovered, order), g);
    }
  }

  /** Filtering an already filtered document keeps it as it is, when no
      block carries two foreign groups. */
  lemma KeptTwice(prev: Document, owned: set<string>)
    requires AtMostOneForeignKey(prev, owned)
    ensures Kept(Kept(prev, owned), owned) == Kept(prev, owned)
  {
    var kept := Kept(prev, owned);
    KeptIffForeign(prev, owned);
    forall k | 0 <= k < |kept|
      ensures |kept[k].Keys - owned| == 1
    {
      assert kept[k] in kept;
      var i :| 0 <= i < |prev| && prev[i] == kept[k];
      AtMostOneElement(prev[i].Keys - owned);
    }
    KeptFixpoint(kept, owned);
  }

  /** The fresh blocks carry owned groups only, so a later filter drops them all. */
  lemma AppendedIsDropped(discovered: Grouping, order: seq<string>, owned: set<string>)
    requires IsEnumeration(order, discovered.Keys) && discovered.Keys <= owned
    ensures Kept(Appended(discovered, order), owned) == []
  {
    var added := Appended(discovered, order);
    AppendedBlockShape(discovered, order);
    forall k | 0 <= k < |added|
      ensures added[k].Keys <= owned
    {
    }
    KeptNothingOwned(added, owned);
  }

  /** Merging the merged document again, over the same groups, drops the
      first run's fresh blocks and appends the second run's: the result is
      what one merge of the previous document in the second order gives. */
  lemma RemergeReplacesFresh(prev: Document, owned: set<string>, discovered: Grouping, order: seq<string>, order': seq<string>)
    requires IsEnumeration(order, discovered.Keys) && IsEnumeration(order', discovered.Keys)
    requires discovered.Keys <= owned
    requires AtMostOneForeignKey(prev, owned)
    ensures Merged(Merged(prev, owned, discovered, order), owned, discovered, order')
         == Merged(prev, owned, discovered, order')
  {
    var kept, added := Kept(prev, owned), Appended(discovered, order);
    KeptAppend(kept, added, owned);
    KeptTwice(prev, owned);
    AppendedIsDropped(discovered, order, owned);
    assert Kept(kept + added, owned) == kept;
  }

  /** A second merge with the same groups and the same iteration order
      changes nothing. */
  lemma MergeIdempotent(prev: Document, owned: set<string>, discovered: Grouping, order: seq<string>)
    requires IsEnumeration(order, discovered.Keys) && discovered.Keys <= owned
    requires AtMostOneForeignKey(prev, owned)
    ensures Merged(Merged(prev, owned, discovered, order), owned, discovered, order)
         == Merged(prev, owned, discovered, order)
  {
    RemergeReplacesFresh(prev, owned, discovered, order, order);
  }

  /** As written, a block with two foreign groups doubles on every merge,
      even when the discovered groups are the same: the second merge is two
      blocks longer than the first. */
  lemma MultiGroupBlockGrows(b: Block, owned: set<string>, discovered: Grouping, order: seq<string>)
    requires |b.Keys - owned| == 2
    requires IsEnumeration(order, discovered.Keys) && discovered.Keys <= owned
    ensures Kept(Kept([b], owned), owned) == [b, b, b, b]
    ensures |Merged(Merged([b], owned, discovered, order), owned, discovered, order)|
         == |Merged([b], owned, discovered, order)| + 2
  {
    MultiGroupBlockIsDuplicated(b, owned);
    KeptAppend([b], [b], owned);
    assert [b, b] == [b] + [b];
    var added := Appended(discovered, order);
    KeptAppend([b, b], added, owned);
    AppendedIsDropped(discovered, order, owned);
  }

  // ---------------------------------------------------------------------------
  // The filter as evidently intended: each block with a foreign group, once

  /** The merge with the intended filter: `Foreign` in place of `Kept`. */
  function MergedOnce(prev: Document, owned: set<string>, discovered: Grouping, order: seq<string>): Document
    requires forall g :: g in order ==> g in discovered
  {
    Foreign(prev, owned) + Appended(discovered, order)
  }

  lemma ForeignCons(a: Document, b: Document, owned: set<string>)
    requires a != []
    ensures Foreign(a + b, owned) == (if a[0].Keys - owned != {} then [a[0]] else []) + Foreign(a[1..] + b, owned)
  {
    assert (a + b)[0] == a[0] && (a + b)[1..] == a[1..] + b;
  }

  lemma {:induction false} ForeignAppend(a: Document, b: Document, owned: set<string>)
    ensures Foreign(a + b, owned) == Foreign(a, owned) + Foreign(b, owned)
  {
    if a == [] {
      assert a + b == b;
    } else {
      var head: Document := if a[0].Keys - owned != {} then [a[0]] else [];
      ForeignAppend(a[1..], b, owned);
      ForeignCons(a, b, owned);
      AppendAssoc(head, Foreign(a[1..], owned), Foreign(b, owned));
    }
  }

  /** The intended filter is idempotent on every document. */
  lemma {:induction false} ForeignTwice(prev: Document, owned: set<string>)
    ensures Foreign(Foreign(prev, owned), owned) == Foreign(prev, owned)
  {
    if prev != [] {
      var head: Document := if prev[0].Keys - owned != {} then [prev[0]] else [];
      ForeignTwice(prev[1..], owned);
      ForeignAppend(head, Foreign(prev[1..], owned), owned);
      assert head != [] ==> head[1..] == [];
    }
  }

  /** With the intended filter, a second merge with the same groups and the
      same iteration order changes nothing, whatever the blocks carry. */
  lemma MergedOnceIdempotent(prev: Document, owned: set<string>, discovered: Grouping, order: seq<string>)
    requires IsEnumeration(order, discovered.Keys) && discovered.Keys <= owned
    ensures MergedOnce(MergedOnce(prev, owned, discovered, order), owned, discovered, order)
         == MergedOnce(prev, owned, discovered, order)
  {
    var foreign, added := Foreign(prev, owned), Appended(discovered, order);
    ForeignAppend(foreign, added, owned);
    ForeignTwice(prev, owned);
    AppendedNotForeign(discovered, order, owned);
    assert Foreign(foreign + added, owned) == foreign;
  }

  /** The intended filter drops the fresh blocks too. */
  lemma AppendedNotForeign(discovered: Grouping, order: seq<string>, owned: set<string>)
    requires IsEnumeration(order, discovered.Keys) && discovered.Keys <= owned
    ensures Foreign(Appended(discovered, order), owned) == []
  {
    var added := Appended(discovered, order);
    AppendedBlockShape(discovered, order);
    assert AtMostOneForeignKey(added, owned);
    KeptIsForeignInOrder(added, owned);
    AppendedIsDropped(discovered, order, owned);
  }

  // ---------------------------------------------------------------------------
  // The append loop as evidently intended: groups visited in ascending order

  /** Strictly ascending in Go's string order. */
  predicate Ascending(order: seq<string>)
  {
    forall i, j :: 0 <= i < j < |order| ==> Less(order[i], order[j])
  }

  /** The first group of an ascending enumeration is below every other group. */
  lemma HeadIsLeast(order: seq<string>, keys: set<string>)
    requires IsEnumeration(order, keys) && Ascending(order) && order != []
    ensures forall g :: g in keys && g != order[0] ==> Less(order[0], g)
  {
    forall g | g in keys && g != order[0]
      ensures Less(order[0], g)
    {
      var k :| 0 <= k < |order| && order[k] == g;
    }
  }

  lemma EnumerationEmpty(order: seq<string>, keys: set<string>)
    requires IsEnumeration(order, keys)
    ensures order == [] <==> keys == {}
  {
    if order != [] {
      assert order[0] in keys;
    }
    if keys != {} {
      var g :| g in keys;
      assert g in order;
    }
  }

  /** Visiting the groups in ascending order leaves no choice: any two
      ascending enumerations of the same groups are equal, so the merge no
      longer depends on the run. */
  lemma {:induction false} AscendingEnumerationUnique(o1: seq<string>, o2: seq<string>, keys: set<string>)
    requires IsEnumeration(o1, keys) && IsEnumeration(o2, keys)
    requires Ascending(o1) && Ascending(o2)
    ensures o1 == o2
    decreases |o1|
  {
    EnumerationEmpty(o1, keys);
    EnumerationEmpty(o2, keys);
    if o1 != [] {
      HeadIsLeast(o1, keys);
      HeadIsLeast(o2, keys);
      assert o1[0] == o2[0] by {
        if Less(o1[0], o2[0]) {
          LessAsymmetric(o1[0], o2[0]);
        }
      }
      var rest := keys - {o1[0]};
      assert IsEnumeration(o1[1..], rest) by {
        forall g ensures g in o1[1..] <==> g in rest {
          if g in o1[1..] {
            var k :| 0 <= k < |o1[1..]| && o1[1..][k] == g;
            assert o1[k + 1] == g;
          }
          if g in rest {
            var k :| 0 <= k < |o1| && o1[k] == g;
            assert o1[1..][k - 1] == g;
          }
        }
      }
      assert IsEnumeration(o2[1..], rest) by {
        forall g ensures g in o2[1..] <==> g in rest {
          if g in o2[1..] {
            var k :| 0 <= k < |o2[1..]| && o2[1..][k] == g;
            assert o2[k + 1] == g;
          }
          if g in rest {
            var k :| 0 <= k < |o2| && o2[k] == g;
            assert o2[1..][k - 1] == g;
          }
        }
      }
      AscendingEnumerationUnique(o1[1..], o2[1..], rest);
      assert o1 == [o1[0]] + o1[1..] && o2 == [o2[0]] + o2[1..];
    }
  }

  /** Every non-empty set of groups has a least one. */
  lemma {:induction false} LeastExists(s: set<string>)
    requires s != {}
    ensures exists m :: m in s && forall x :: x in s ==> !Less(x, m)
    decreases |s|
  {
    var x :| x in s;
    if s == {x} {
      LessIrreflexive(x);
      assert forall y :: y in s ==> y == x;
    } else {
      LeastExists(s - {x});
      var m :| m in s - {x} && forall y :: y in s - {x} ==> !Less(y, m);
      if Less(x, m) {
        forall y | y in s
          ensures !Less(y, x)
        {
          if y == x {
            LessIrreflexive(x);
          } else if Less(y, x) {
            LessTransitive(y, x, m);
          }
        }
      } else {
        assert forall y :: y in s ==> !Less(y, m);
      }
    }
  }

  /** The groups in ascending order: the visiting order the intended
      append loop uses. */
  ghost function AscendingKeys(s: set<string>): (order: seq<string>)
    ensures IsEnumeration(order, s) && Ascending(order)
    decreases |s|
  {
    if s == {} then []
    else
      LeastExists(s);
      var m :| m in s && forall x :: x in s ==> !Less(x, m);
      var rest := AscendingKeys(s - {m});
      LeastPrepended(m, s, rest);
      [m] + rest
  }

  /** Putting the least group in front of an ascending enumeration of the
      others gives an ascending enumeration of all. */
  lemma LeastPrepended(m: string, s: set<string>, rest: seq<string>)
    requires m in s && forall x :: x in s ==> !Less(x, m)
    requires IsEnumeration(rest, s - {m}) && Ascending(rest)
    ensures IsEnumeration([m] + rest, s) && Ascending([m] + rest)
  {
    forall i | 0 <= i < |rest|
      ensures Less(m, rest[i])
    {
      assert rest[i] in s - {m};
      LessTrichotomy(m, rest[i]);
    }
    var r := [m] + rest;
    forall i, j | 0 <= i < j < |r|
      ensures Less(r[i], r[j])
    {
      if i > 0 {
        assert r[i] == rest[i - 1] && r[j] == rest[j - 1];
      }
    }
  }

  /** With the groups visited in ascending order, two runs over the same
      input give the same document. */
  lemma AscendingMergeIsDeterministic(prev: Document, owned: set<string>, discovered: Grouping, o1: seq<string>, o2: seq<string>)
    requires IsEnumeration(o1, discovered.Keys) && IsEnumeration(o2, discovered.Keys)
    requires Ascending(o1) && Ascending(o2)
    ensures Merged(prev, owned, discovered, o1) == Merged(prev, owned, discovered, o2)
  {
    AscendingEnumerationUnique(o1, o2, discovered.Keys);
  }

  /** The order of the fresh blocks follows the map iteration: two runs over
      the same groups visited in different orders give different documents. */
  lemma IterationOrderIsVisible(prev: Document, owned: set<string>, discovered: Grouping, a: string, b: string)
    requires a in discovered && b in discovered && a != b
    requires discovered[a] != [] && discovered[b] != []
    ensures Merged(prev, owned, discovered, [a, b]) != Merged(prev, owned, discovered, [b, a])
  {
    var kept := Kept(prev, owned);
    assert [a, b][..1] == [a] && [b, a][..1] == [b];
    assert [a][..0] == [] && [b][..0] == [];
    assert |Entries(discovered[a])| > 0 && |Entries(discovered[b])| > 0;
    assert Appended(discovered, [a]) == [BlockFor(discovered, a)];
    assert Appended(discovered, [b]) == [BlockFor(discovered, b)];
    assert Merged(prev, owned, discovered, [a, b])[|kept|] == BlockFor(discovered, a);
    assert Merged(prev, owned, discovered, [b, a])[|kept|] == BlockFor(discovered, b);
    assert a in BlockFor(discovered, a) && a !in BlockFor(discovered, b);
  }

  /** As written, merging the merged document again with two groups
      visited the other way round gives a different document, though
      nothing else changed. */
  lemma ReorderedRemergeDiffers(prev: Document, owned: set<string>, discovered: Grouping, a: string, b: string)
    requires discovered.Keys == {a, b} && a != b && discovered[a] != [] && discovered[b] != []
    requires discovered.Keys <= owned
    requires AtMostOneForeignKey(prev, owned)
    ensures Merged(Merged(prev, owned, discovered, [a, b]), owned, discovered, [b, a])
         != Merged(prev, owned, discovered, [a, b])
  {
    assert IsEnumeration([a, b], discovered.Keys) && IsEnumeration([b, a], discovered.Keys);
    RemergeReplacesFresh(prev, owned, discovered, [a, b], [b, a]);
    IterationOrderIsVisible(prev, owned, discovered, a, b);
  }

  /** The example of a rewritten owned group: `[{A: [{x: /x}]}]` with A owned
      and one service y discovered in A becomes `[{A: [{y: /y}]}]`. */
  lemma ReplacesOwnedGroup()
    ensures Merged([map["A" := [map["x" := ServiceEntry("", "/x", "")]]]], {"A"},
                   map["A" := [DiscoveredService("y", "", "A", "", "/y", 0)]], ["A"])
         == [map["A" := [map["y" := ServiceEntry("", "/y", "")]]]]
  {
    var prev: Document := [map["A" := [map["x" := ServiceEntry("", "/x", "")]]]];
    assert prev[0].Keys - {"A"} == {};
    assert prev[..0] == [];
    assert ["A"][..0] == [];
    var d: Grouping := map["A" := [DiscoveredService("y", "", "A", "", "/y", 0)]];
    assert Entries(d["A"]) == [map["y" := ServiceEntry("", "/y", "")]];
  }
}
