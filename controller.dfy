/** The Controller: its one piece of state across reconciles is the set of
    groups it has produced entries for (`discoveredGroups`), and one
    reconcile runs collection, sorting, the services.yaml merge, the write
    gate and the layout sync in sequence. */
module Controller {

  import opened Wrappers
  import opened Homepage
  import opened Collector
  import Extractor
  import Merger
  import Layout

  /** What updateConfigMap ends with. */
  datatype UpdateOutcome =
    | ParseFailed                          // services.yaml did not parse; nothing written
    | Unchanged                            // the re-encoded text equals the old one; nothing written
    | Written(data: map<string, string>)   // the ConfigMap data sent to Update

  /** The previous services.yaml document: an empty text is an empty
      document and is not parsed. */
  function PreviousDocument(data: map<string, string>, codec: Codec): Option<Document>
  {
    var text := Lookup(data, ServicesKey);
    if text == "" then Some([]) else codec.decodeServices(text)
  }

  /** updateConfigMap for the map iteration orders the run used. */
  function NextConfigMap(
    data: map<string, string>, owned: set<string>, discovered: Grouping,
    mergeOrder: seq<string>, layoutOrder: seq<string>, codec: Codec): UpdateOutcome
    requires forall g :: g in mergeOrder ==> g in discovered
  {
    match PreviousDocument(data, codec)
    case None => ParseFailed
    case Some(prev) =>
      var text := codec.encodeServices(Merger.Merged(prev, owned, discovered, mergeOrder));
      if text == Lookup(data, ServicesKey) then Unchanged
      else
        var data' := data[ServicesKey := text];
        match Layout.SyncSettings(Lookup(data, SettingsKey), layoutOrder, codec)
        case Rewritten(settings) => Written(data'[SettingsKey := settings])
        case _ => Written(data')
  }

  /** handleServiceChange restarts homepage whenever updateConfigMap returned
      no error, which includes the run that found nothing to change. */
  function RestartAsWritten(restartHomepage: bool, outcome: UpdateOutcome): bool
  {
    restartHomepage && !outcome.ParseFailed?
  }

  /** The intended rule: restart only after a write. */
  function RestartOnChange(restartHomepage: bool, outcome: UpdateOutcome): (restart: bool)
    ensures restart ==> outcome.Written?
  {
    restartHomepage && outcome.Written?
  }

  /** The lines of updateConfigMap between reading the ConfigMap and writing it. */
  method UpdateConfigMap(data: map<string, string>, owned: set<string>, discovered: Grouping, codec: Codec)
    returns (outcome: UpdateOutcome, ghost mergeOrder: seq<string>, ghost layoutOrder: seq<string>)
    ensures IsEnumeration(mergeOrder, discovered.Keys) && IsEnumeration(layoutOrder, discovered.Keys)
    ensures outcome == NextConfigMap(data, owned, discovered, mergeOrder, layoutOrder, codec)
  {
    var text := Lookup(data, ServicesKey);
    var prev: Document := [];
    if text != "" {
      var decoded := codec.decodeServices(text);
      if decoded.None? {
        outcome := ParseFailed;
        mergeOrder, layoutOrder := Layout.Enumerate(discovered.Keys), Layout.Enumerate(discovered.Keys);
        return;
      }
      prev := decoded.value;
    }
    var doc;
    doc, mergeOrder := Merger.Merge(prev, owned, discovered);
    var newText := codec.encodeServices(doc);
    if newText == text {
      outcome := Unchanged;
      layoutOrder := Layout.Enumerate(discovered.Keys);
      return;
    }
    var next := data[ServicesKey := newText];
    var settings;
    settings, layoutOrder := Layout.UpdateSettingsLayout(Lookup(data, SettingsKey), discovered.Keys, codec);
    if settings.Rewritten? {
      next := next[SettingsKey := settings.text];
    }
    outcome := Written(next);
  }

  /** The write gate compares texts; when the stored text is the encoding
      of the document it decodes to and encoding is injective, that is the
      same as comparing the documents. */
  lemma WriteGateIsDocumentChange(
    data: map<string, string>, owned: set<string>, discovered: Grouping,
    mergeOrder: seq<string>, layoutOrder: seq<string>, codec: Codec, prev: Document)
    requires forall g :: g in mergeOrder ==> g in discovered
    requires PreviousDocument(data, codec) == Some(prev)
    requires Lookup(data, ServicesKey) == codec.encodeServices(prev)
    requires forall x, y :: codec.encodeServices(x) == codec.encodeServices(y) ==> x == y
    ensures NextConfigMap(data, owned, discovered, mergeOrder, layoutOrder, codec).Written?
        <==> Merger.Merged(prev, owned, discovered, mergeOrder) != prev
    ensures NextConfigMap(data, owned, discovered, mergeOrder, layoutOrder, codec) == Unchanged
        <==> Merger.Merged(prev, owned, discovered, mergeOrder) == prev
  {
  }

  /** A write changes services.yaml, possibly settings.yaml, and no other key. */
  lemma WriteTouchesTwoKeys(
    data: map<string, string>, owned: set<string>, discovered: Grouping,
    mergeOrder: seq<string>, layoutOrder: seq<string>, codec: Codec)
    requires forall g :: g in mergeOrder ==> g in discovered
    requires NextConfigMap(data, owned, discovered, mergeOrder, layoutOrder, codec).Written?
    ensures var next := NextConfigMap(data, owned, discovered, mergeOrder, layoutOrder, codec).data;
      && next.Keys - {ServicesKey, SettingsKey} == data.Keys - {ServicesKey, SettingsKey}
      && (forall k :: k in data && k != ServicesKey && k != SettingsKey ==> next[k] == data[k])
      && Lookup(next, ServicesKey) != Lookup(data, ServicesKey)
  {
  }

  /** Idempotence of a reconcile: after a run that wrote the ConfigMap, a run
      over the same Services with the same merge order finds nothing to
      write, whatever order the layout loop takes. The YAML library must
      read back what it writes and never write an empty text. */
  lemma SecondRunWritesNothing(
    data: map<string, string>, owned: set<string>, discovered: Grouping,
    mergeOrder: seq<string>, layoutOrder: seq<string>, layoutOrder': seq<string>, codec: Codec)
    requires IsEnumeration(mergeOrder, discovered.Keys) && discovered.Keys <= owned
    requires forall doc :: codec.decodeServices(codec.encodeServices(doc)) == Some(doc)
    requires forall doc :: codec.encodeServices(doc) != ""
    requires PreviousDocument(data, codec).Some?
    requires Merger.AtMostOneForeignKey(PreviousDocument(data, codec).value, owned)
    requires NextConfigMap(data, owned, discovered, mergeOrder, layoutOrder, codec).Written?
    ensures NextConfigMap(NextConfigMap(data, owned, discovered, mergeOrder, layoutOrder, codec).data,
                          owned, discovered, mergeOrder, layoutOrder', codec) == Unchanged
  {
    var prev := PreviousDocument(data, codec).value;
    var merged := Merger.Merged(prev, owned, discovered, mergeOrder);
    var next := NextConfigMap(data, owned, discovered, mergeOrder, layoutOrder, codec).data;
    assert Lookup(next, ServicesKey) == codec.encodeServices(merged);
    assert PreviousDocument(next, codec) == Some(merged);
    Merger.MergeIdempotent(prev, owned, discovered, mergeOrder);
  }

  /** As written, a stored block with two groups that are not owned makes
      every run write: the first run writes, and so does the next one over
      the same Services and merge order. */
  lemma MultiGroupBlockWritesEveryRun(
    data: map<string, string>, owned: set<string>, discovered: Grouping,
    mergeOrder: seq<string>, layoutOrder: seq<string>, layoutOrder': seq<string>, codec: Codec, b: Block)
    requires |b.Keys - owned| == 2
    requires IsEnumeration(mergeOrder, discovered.Keys) && discovered.Keys <= owned
    requires forall doc :: codec.decodeServices(codec.encodeServices(doc)) == Some(doc)
    requires forall doc :: codec.encodeServices(doc) != ""
    requires PreviousDocument(data, codec) == Some([b])
    ensures NextConfigMap(data, owned, discovered, mergeOrder, layoutOrder, codec).Written?
    ensures NextConfigMap(NextConfigMap(data, owned, discovered, mergeOrder, layoutOrder, codec).data,
                          owned, discovered, mergeOrder, layoutOrder', codec).Written?
  {
    var first := Merger.Merged([b], owned, discovered, mergeOrder);
    var second := Merger.Merged(first, owned, discovered, mergeOrder);
    Merger.MultiGroupBlockGrows(b, owned, discovered, mergeOrder);
    Merger.MultiGroupBlockIsDuplicated(b, owned);
    assert |first| >= 2;
    assert codec.decodeServices(codec.encodeServices(first)) == Some(first);
    var next := NextConfigMap(data, owned, discovered, mergeOrder, layoutOrder, codec).data;
    assert Lookup(next, ServicesKey) == codec.encodeServices(first);
    assert PreviousDocument(next, codec) == Some(first);
    assert codec.decodeServices(codec.encodeServices(second)) == Some(second);
  }

  /** As written, a run that visits the discovered groups in another order
      writes the ConfigMap again although no Service changed. */
  lemma ReorderedRunWrites(
    data: map<string, string>, owned: set<string>, discovered: Grouping, a: string, b: string,
    layoutOrder: seq<string>, layoutOrder': seq<string>, codec: Codec)
    requires discovered.Keys == {a, b} && a != b && discovered[a] != [] && discovered[b] != []
    requires discovered.Keys <= owned
    requires forall doc :: codec.decodeServices(codec.encodeServices(doc)) == Some(doc)
    requires forall doc :: codec.encodeServices(doc) != ""
    requires PreviousDocument(data, codec).Some?
    requires Merger.AtMostOneForeignKey(PreviousDocument(data, codec).value, owned)
    requires NextConfigMap(data, owned, discovered, [a, b], layoutOrder, codec).Written?
    ensures NextConfigMap(NextConfigMap(data, owned, discovered, [a, b], layoutOrder, codec).data,
                          owned, discovered, [b, a], layoutOrder', codec).Written?
  {
    var prev := PreviousDocument(data, codec).value;
    var first := Merger.Merged(prev, owned, discovered, [a, b]);
    var next := NextConfigMap(data, owned, discovered, [a, b], layoutOrder, codec).data;
    assert Lookup(next, ServicesKey) == codec.encodeServices(first);
    assert PreviousDocument(next, codec) == Some(first);
    Merger.ReorderedRemergeDiffers(prev, owned, discovered, a, b);
    var second := Merger.Merged(first, owned, discovered, [b, a]);
    assert codec.decodeServices(codec.encodeServices(second)) == Some(second);
  }

  /** As written, the second run of SecondRunWritesNothing still restarts
      homepage when restarts are enabled. */
  lemma RestartWithoutChange(
    data: map<string, string>, owned: set<string>, discovered: Grouping,
    mergeOrder: seq<string>, layoutOrder: seq<string>, layoutOrder': seq<string>, codec: Codec)
    requires IsEnumeration(mergeOrder, discovered.Keys) && discovered.Keys <= owned
    requires forall doc :: codec.decodeServices(codec.encodeServices(doc)) == Some(doc)
    requires forall doc :: codec.encodeServices(doc) != ""
    requires PreviousDocument(data, codec).Some?
    requires Merger.AtMostOneForeignKey(PreviousDocument(data, codec).value, owned)
    requires NextConfigMap(data, owned, discovered, mergeOrder, layoutOrder, codec).Written?
    ensures var second := NextConfigMap(NextConfigMap(data, owned, discovered, mergeOrder, layoutOrder, codec).data,
                                        owned, discovered, mergeOrder, layoutOrder', codec);
      second == Unchanged && RestartAsWritten(true, second)
  {
    SecondRunWritesNothing(data, owned, discovered, mergeOrder, layoutOrder, layoutOrder', codec);
  }

  /** With the restart gated on a write, the second run does not restart. */
  lemma NoRestartWithoutChange(
    data: map<string, string>, owned: set<string>, discovered: Grouping,
    mergeOrder: seq<string>, layoutOrder: seq<string>, layoutOrder': seq<string>, codec: Codec,
    restartHomepage: bool)
    requires IsEnumeration(mergeOrder, discovered.Keys) && discovered.Keys <= owned
    requires forall doc :: codec.decodeServices(codec.encodeServices(doc)) == Some(doc)
    requires forall doc :: codec.encodeServices(doc) != ""
    requires PreviousDocument(data, codec).Some?
    requires Merger.AtMostOneForeignKey(PreviousDocument(data, codec).value, owned)
    requires NextConfigMap(data, owned, discovered, mergeOrder, layoutOrder, codec).Written?
    ensures !RestartOnChange(restartHomepage,
      NextConfigMap(NextConfigMap(data, owned, discovered, mergeOrder, layoutOrder, codec).data,
                    owned, discovered, mergeOrder, layoutOrder', codec))
  {
    SecondRunWritesNothing(data, owned, discovered, mergeOrder, layoutOrder, layoutOrder', codec);
  }

  class Controller {
    /** `discoveredGroups`: every group this controller has produced an entry for. */
    var owned: set<string>
    const restartHomepage: bool

    constructor (restartHomepage: bool)
      ensures owned == {} && this.restartHomepage == restartHomepage
    {
      owned := {};
      this.restartHomepage := restartHomepage;
    }

    /** The collection loop of handleServiceChange: extract each Service,
        append the record to its group and mark the group as owned. */
    method Collect(services: seq<Service>) returns (discovered: Grouping)
      modifies this
      ensures discovered == Grouped(services)
      ensures owned == old(owned) + discovered.Keys
    {
      discovered := map[];
      var i := 0;
      while i < |services|
        invariant 0 <= i <= |services|
        invariant discovered == Grouped(services[..i])
        invariant owned == old(owned) + discovered.Keys
      {
        var svc := services[i];
        assert services[..i + 1][..i] == services[..i];
        var extracted := Extractor.Extract(svc.annotations, svc.name);
        if extracted.Some? {
          var ds := extracted.value;
          owned := owned + {ds.group};
          var group := if ds.group in discovered then discovered[ds.group] else [];
          discovered := discovered[ds.group := group + [ds]];
          ghost var records := Extracted(services[..i]);
          assert (records + [ds])[..|records|] == records;
        }
        i := i + 1;
      }
      assert services[..|services|] == services;
    }

    /** handleServiceChange, from the listed Services to the ConfigMap write
        and the restart decision. The iteration orders of the run's map loops
        and the tie order of the unstable sort are returned as ghosts. */
    method HandleServiceChange(services: seq<Service>, data: map<string, string>, codec: Codec)
      returns (outcome: UpdateOutcome, restart: bool,
               ghost discovered: Grouping, ghost mergeOrder: seq<string>, ghost layoutOrder: seq<string>)
      modifies this
      ensures owned == old(owned) + Grouped(services).Keys
      ensures SortedGrouping(discovered, Grouped(services))
      ensures IsEnumeration(mergeOrder, discovered.Keys) && IsEnumeration(layoutOrder, discovered.Keys)
      ensures outcome == NextConfigMap(data, owned, discovered, mergeOrder, layoutOrder, codec)
      ensures restart == RestartAsWritten(restartHomepage, outcome)
    {
      var collected := Collect(services);
      var sorted := SortGroups(collected);
      discovered := sorted;
      outcome, mergeOrder, layoutOrder := UpdateConfigMap(data, owned, sorted, codec);
      restart := restartHomepage && !outcome.ParseFailed?;
    }
  }
}
