/** Collection: the loop of handleServiceChange that partitions the extracted
    records by group, and the loop that sorts every group by name. */
module Collector {

  import opened Wrappers
  import opened Homepage
  import opened ByteOrder
  import Extractor

  /** The `discovered` map: group name to the records of that group. */
  type Grouping = map<string, seq<DiscoveredService>>

  /** The records the Services yield, in list order; skipped Services yield none. */
  function Extracted(services: seq<Service>): seq<DiscoveredService>
  {
    if services == [] then []
    else
      var prefix := Extracted(services[..|services| - 1]);
      match Extractor.ExtractService(services[|services| - 1])
      case None => prefix
      case Some(ds) => prefix + [ds]
  }

  /** The records of group `g`, in order (a reference definition of a group). */
  function InGroup(records: seq<DiscoveredService>, g: string): seq<DiscoveredService>
  {
    if records == [] then []
    else
      var last := records[|records| - 1];
      InGroup(records[..|records| - 1], g) + if last.group == g then [last] else []
  }

  /** `discovered[ds.Group] = append(discovered[ds.Group], ds)`. */
  function Add(d: Grouping, ds: DiscoveredService): Grouping
  {
    d[ds.group := (if ds.group in d then d[ds.group] else []) + [ds]]
  }

  /** The map the collector builds from records, before sorting. */
  function GroupOf(records: seq<DiscoveredService>): Grouping
  {
    if records == [] then map[]
    else Add(GroupOf(records[..|records| - 1]), records[|records| - 1])
  }

  /** The map the collector loop builds from the Service list. */
  function Grouped(services: seq<Service>): Grouping
  {
    GroupOf(Extracted(services))
  }

  /** The collector's map is exactly the partition of the records by group:
      a group is a key iff some record names it, and its sequence holds
      that group's records in order. */
  lemma {:induction false} GroupOfIsPartition(records: seq<DiscoveredService>)
    ensures forall g :: g in GroupOf(records) <==> InGroup(records, g) != []
    ensures forall g :: g in GroupOf(records) ==> GroupOf(records)[g] == InGroup(records, g)
  {
    if records != [] {
      GroupOfIsPartition(records[..|records| - 1]);
    }
  }

  /** Every record of a group carries that group's name, and nothing else
      of the input lands in it. */
  lemma {:induction false} InGroupMembers(records: seq<DiscoveredService>, g: string)
    ensures forall ds :: ds in InGroup(records, g) <==> ds in records && ds.group == g
  {
    if records != [] {
      InGroupMembers(records[..|records| - 1], g);
      assert records == records[..|records| - 1] + [records[|records| - 1]];
    }
  }

  /** Every group of the collector's map is non-empty, and holds only
      records of that group extracted from the Services. */
  lemma GroupedGroups(services: seq<Service>)
    ensures forall g :: g in Grouped(services) ==> |Grouped(services)[g]| > 0
    ensures forall g, ds :: g in Grouped(services) && ds in Grouped(services)[g] ==>
      ds.group == g && ds in Extracted(services)
  {
    var records := Extracted(services);
    GroupOfIsPartition(records);
    forall g | g in GroupOf(records)
      ensures forall ds :: ds in GroupOf(records)[g] ==> ds.group == g && ds in records
    {
      InGroupMembers(records, g);
    }
  }

  /** A Service that is skipped contributes no record and no group. */
  lemma SkippedServiceAddsNothing(services: seq<Service>, svc: Service)
    requires Extractor.ExtractService(svc).None?
    ensures Extracted(services + [svc]) == Extracted(services)
    ensures Grouped(services + [svc]) == Grouped(services)
  {
    assert (services + [svc])[..|services|] == services;
  }

  /** Ordered by name: no later record's name is below an earlier one's. */
  predicate SortedByName(s: seq<DiscoveredService>)
  {
    forall i, j :: 0 <= i < j < |s| ==> !Less(s[j].name, s[i].name)
  }

  /** `sort.Slice(group, func(i, j) { group[i].Name < group[j].Name })`,
      modelled as an insertion sort in place. sort.Slice is not stable, so
      only order and permutation are promised. */
  method SortByName(a: array<DiscoveredService>)
    modifies a
    ensures SortedByName(a[..])
    ensures multiset(a[..]) == old(multiset(a[..]))
  {
    var i := 0;
    while i < a.Length
      invariant 0 <= i <= a.Length
      invariant SortedByName(a[..i])
      invariant multiset(a[..]) == old(multiset(a[..]))
    {
      InsertByName(a, i);
      i := i + 1;
    }
  }

  /** One step of the insertion sort: moves `a[i]` left past every larger
      name, so that the prefix up to and including `i` is sorted. */
  method InsertByName(a: array<DiscoveredService>, i: nat)
    requires i < a.Length && SortedByName(a[..i])
    modifies a
    ensures SortedByName(a[..i + 1])
    ensures multiset(a[..i + 1]) == old(multiset(a[..i + 1]))
    ensures a[i + 1..] == old(a[i + 1..])
    ensures multiset(a[..]) == old(multiset(a[..]))
  {
    var j := i;
    while j > 0 && Less(a[j].name, a[j - 1].name)
      invariant 0 <= j <= i
      invariant multiset(a[..i + 1]) == old(multiset(a[..i + 1]))
      invariant a[i + 1..] == old(a[i + 1..])
      invariant SortedExcept(a[..], j, i) && BelowRest(a[..], j, i)
    {
      ghost var s := a[..];
      a[j - 1], a[j] := a[j], a[j - 1];
      assert a[..] == s[j - 1 := s[j]][j := s[j - 1]];
      SwapStep(s, j, i);
      SwapKeepsPrefix(s, j, i);
      j := j - 1;
    }
    InsertedIsSorted(a[..], j, i);
    SplitMultiset(old(a[..]), a[..], i + 1);
  }

  /** The prefix up to `i` is sorted once position `j` is set aside. */
  predicate SortedExcept(s: seq<DiscoveredService>, j: nat, i: nat)
    requires i < |s|
  {
    forall p, q :: 0 <= p < q <= i && p != j && q != j ==> !Less(s[q].name, s[p].name)
  }

  /** The record at `j` has a smaller name than every record after it up to `i`. */
  predicate BelowRest(s: seq<DiscoveredService>, j: nat, i: nat)
    requires j <= i < |s|
  {
    forall q :: j < q <= i ==> Less(s[j].name, s[q].name)
  }

  /** Swapping the record at `j` with a larger left neighbour keeps both
      facts, one position further left. */
  lemma SwapStep(s: seq<DiscoveredService>, j: nat, i: nat)
    requires 0 < j <= i < |s|
    requires SortedExcept(s, j, i) && BelowRest(s, j, i)
    requires Less(s[j].name, s[j - 1].name)
    ensures SortedExcept(s[j - 1 := s[j]][j := s[j - 1]], j - 1, i)
    ensures BelowRest(s[j - 1 := s[j]][j := s[j - 1]], j - 1, i)
  {
  }

  /** Swapping two neighbours inside the prefix up to `i` permutes that
      prefix and leaves the rest alone. */
  lemma SwapKeepsPrefix(s: seq<DiscoveredService>, j: nat, i: nat)
    requires 0 < j <= i < |s|
    ensures multiset(s[j - 1 := s[j]][j := s[j - 1]][..i + 1]) == multiset(s[..i + 1])
    ensures s[j - 1 := s[j]][j := s[j - 1]][i + 1..] == s[i + 1..]
  {
    assert s[j - 1 := s[j]][j := s[j - 1]][..i + 1] == s[..i + 1][j - 1 := s[j]][j := s[j - 1]];
  }

  /** Two sequences with the same multiset up to `k` and the same elements
      after it have the same multiset. */
  lemma SplitMultiset(s: seq<DiscoveredService>, t: seq<DiscoveredService>, k: nat)
    requires k <= |s| == |t|
    requires multiset(s[..k]) == multiset(t[..k]) && s[k..] == t[k..]
    ensures multiset(s) == multiset(t)
  {
    assert s == s[..k] + s[k..];
    assert t == t[..k] + t[k..];
  }

  /** When the record at `j` is below everything after it up to `i`, not
      below its left neighbour, and the rest of the prefix is sorted, the
      whole prefix is sorted. */
  lemma InsertedIsSorted(s: seq<DiscoveredService>, j: nat, i: nat)
    requires j <= i < |s|
    requires SortedExcept(s, j, i) && BelowRest(s, j, i)
    requires j > 0 ==> !Less(s[j].name, s[j - 1].name)
    ensures SortedByName(s[..i + 1])
  {
    forall p, q | 0 <= p < q <= i
      ensures !Less(s[q].name, s[p].name)
    {
      if q == j {
        if p < j - 1 {
          NotLessTransitive(s[p].name, s[j - 1].name, s[j].name);
        }
      } else if p == j {
        LessAsymmetric(s[j].name, s[q].name);
      }
    }
  }

  /** `sorted` has the groups of `collected`, each ordered by name and a
      permutation of what was collected. */
  predicate SortedGrouping(sorted: Grouping, collected: Grouping)
  {
    && sorted.Keys == collected.Keys
    && forall g :: g in sorted ==>
         SortedByName(sorted[g]) && multiset(sorted[g]) == multiset(collected[g])
  }

  /** The loop over `discovered` that sorts each group, in whatever order
      the map is iterated: same groups, each sorted and a permutation of
      what was collected. */
  method SortGroups(discovered: Grouping) returns (sorted: Grouping)
    ensures SortedGrouping(sorted, discovered)
  {
    sorted := discovered;
    var remaining := discovered.Keys;
    while remaining != {}
      invariant remaining <= discovered.Keys == sorted.Keys
      invariant forall g :: g in sorted ==> multiset(sorted[g]) == multiset(discovered[g])
      invariant forall g :: g in sorted && g !in remaining ==> SortedByName(sorted[g])
      decreases remaining
    {
      var g :| g in remaining;
      var group := sorted[g];
      var a := new DiscoveredService[|group|](k requires 0 <= k < |group| => group[k]);
      assert a[..] == group;
      SortByName(a);
      sorted := sorted[g := a[..]];
      remaining := remaining - {g};
    }
  }

  /** Sorting decides the order of records with different names: `b`
      collected before `a` still comes out after it. */
  lemma SortOrdersDistinctNames(s: seq<DiscoveredService>, a: DiscoveredService, b: DiscoveredService)
    requires Less(a.name, b.name)
    requires SortedByName(s) && multiset(s) == multiset([b, a])
    ensures s == [a, b]
  {
    assert |s| == |multiset(s)| == 2;
    assert s == [s[0], s[1]];
    assert multiset{s[0], s[1]} == multiset{b, a};
    assert !Less(s[1].name, s[0].name);
    LessAsymmetric(a.name, b.name);
    LessIrreflexive(a.name);
  }
}
