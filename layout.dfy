/** updateSettingsLayout: settings.yaml gets a `{group: {style: row, columns: 4}}`
    layout item for every discovered group that no layout item names yet.
    Existing items are never touched. */
module Layout {

  import opened Wrappers
  import opened Homepage

  /** The layout item appended for group `g`. */
  function DefaultItem(g: string): Value
  {
    Mapping(map[g := Mapping(map["style" := Str("row"), "columns" := Int(4)])])
  }

  /** The groups the layout already names: the keys of every item that is a
      mapping; other items name none. */
  function LayoutGroups(layout: seq<Value>): set<string>
  {
    if layout == [] then {}
    else
      LayoutGroups(layout[..|layout| - 1]) +
      match layout[|layout| - 1]
      case Mapping(fields) => fields.Keys
      case _ => {}
  }

  /** The items the append loop adds, visiting the groups in `order`. */
  function Missing(existing: set<string>, order: seq<string>): seq<Value>
  {
    if order == [] then []
    else
      var g := order[|order| - 1];
      Missing(existing, order[..|order| - 1]) + if g in existing then [] else [DefaultItem(g)]
  }

  /** What happens to settings.yaml. */
  datatype LayoutOutcome =
    | Untouched          // empty text, no `layout` list, or nothing to add
    | Failed             // settings.yaml did not parse
    | Rewritten(text: string)

  /** The outcome of updateSettingsLayout for one iteration order. */
  function SyncSettings(text: string, order: seq<string>, codec: Codec): LayoutOutcome
  {
    if text == "" then Untouched
    else
      match codec.decodeSettings(text)
      case None => Failed
      case Some(settings) =>
        if "layout" !in settings || !settings["layout"].List? then Untouched
        else
          var layout := settings["layout"].items;
          var added := Missing(LayoutGroups(layout), order);
          if added == [] then Untouched
          else Rewritten(codec.encodeSettings(settings["layout" := List(layout + added)]))
  }

  // ---------------------------------------------------------------------------
  // The loops of updateSettingsLayout

  /** The loop that records the keys of every mapping item. */
  method ExistingGroups(layout: seq<Value>) returns (existing: set<string>)
    ensures existing == LayoutGroups(layout)
  {
    existing := {};
    var i := 0;
    while i < |layout|
      invariant 0 <= i <= |layout|
      invariant existing == LayoutGroups(layout[..i])
    {
      if layout[i].Mapping? {
        var keys := layout[i].fields.Keys;
        ghost var visited: set<string> := {};
        while keys != {}
          invariant keys !! visited && keys + visited == layout[i].fields.Keys
          invariant existing == LayoutGroups(layout[..i]) + visited
          decreases keys
        {
          var g :| g in keys;
          existing := existing + {g};
          keys, visited := keys - {g}, visited + {g};
        }
      }
      assert layout[..i + 1][..i] == layout[..i];
      i := i + 1;
    }
    assert layout[..|layout|] == layout;
  }

  /** The loop over the discovered groups, in map order, with its `modified`
      flag. */
  method AppendMissing(layout: seq<Value>, existing: set<string>, groups: set<string>)
    returns (result: seq<Value>, modified: bool, ghost order: seq<string>)
    ensures IsEnumeration(order, groups)
    ensures result == layout + Missing(existing, order)
    ensures modified <==> |result| > |layout|
  {
    result, modified, order := layout, false, [];
    var remaining := groups;
    while remaining != {}
      invariant remaining <= groups
      invariant forall g :: g in order <==> g in groups - remaining
      invariant forall i, j :: 0 <= i < j < |order| ==> order[i] != order[j]
      invariant result == layout + Missing(existing, order)
      invariant modified <==> |result| > |layout|
      decreases |remaining|
    {
      var g :| g in remaining;
      assert g !in order;
      MissingStep(layout, existing, order, g);
      if g !in existing {
        result := result + [DefaultItem(g)];
        modified := true;
      }
      order := order + [g];
      remaining := remaining - {g};
    }
  }

  lemma MissingStep(layout: seq<Value>, existing: set<string>, order: seq<string>, g: string)
    ensures layout + Missing(existing, order + [g])
         == (layout + Missing(existing, order)) + if g in existing then [] else [DefaultItem(g)]
  {
    assert (order + [g])[..|order|] == order;
  }

  /** Some enumeration of a set, for the paths that return before iterating. */
  ghost function Enumerate(s: set<string>): (order: seq<string>)
    ensures IsEnumeration(order, s)
    decreases s
  {
    if s == {} then []
    else
      var g :| g in s;
      [g] + Enumerate(s - {g})
  }

  /** updateSettingsLayout on the text of settings.yaml. */
  method UpdateSettingsLayout(text: string, groups: set<string>, codec: Codec)
    returns (outcome: LayoutOutcome, ghost order: seq<string>)
    ensures IsEnumeration(order, groups)
    ensures outcome == SyncSettings(text, order, codec)
    ensures text == "" ==> outcome == Untouched
  {
    order := Enumerate(groups);
    if text == "" {
      return Untouched, order;
    }
    var decoded := codec.decodeSettings(text);
    if decoded.None? {
      return Failed, order;
    }
    var settings := decoded.value;
    if "layout" !in settings || !settings["layout"].List? {
      return Untouched, order;
    }
    var layout := settings["layout"].items;
    var existing := ExistingGroups(layout);
    var result, modified;
    result, modified, order := AppendMissing(layout, existing, groups);
    if modified {
      outcome := Rewritten(codec.encodeSettings(settings["layout" := List(result)]));
    } else {
      outcome := Untouched;
    }
  }

  // ---------------------------------------------------------------------------
  // Properties of the sync

  lemma {:induction false} LayoutGroupsAppend(a: seq<Value>, b: seq<Value>)
    ensures LayoutGroups(a + b) == LayoutGroups(a) + LayoutGroups(b)
  {
    if b == [] {
      assert a + b == a;
    } else {
      LayoutGroupsAppend(a, b[..|b| - 1]);
      assert (a + b)[..|a + b| - 1] == a + b[..|b| - 1];
    }
  }

  /** The groups of `order` that are not in `existing`. */
  function MissingGroups(existing: set<string>, order: seq<string>): set<string>
  {
    set g | g in order && g !in existing
  }

  lemma MissingGroupsStep(existing: set<string>, order: seq<string>)
    requires order != []
    ensures MissingGroups(existing, order)
         == MissingGroups(existing, order[..|order| - 1])
          + if order[|order| - 1] in existing then {} else {order[|order| - 1]}
  {
    assert order == order[..|order| - 1] + [order[|order| - 1]];
  }

  /** The appended items name exactly the visited groups that were missing. */
  lemma {:induction false} MissingNamesMissingGroups(existing: set<string>, order: seq<string>)
    ensures LayoutGroups(Missing(existing, order)) == MissingGroups(existing, order)
  {
    if order != [] {
      var init, h := order[..|order| - 1], order[|order| - 1];
      MissingNamesMissingGroups(existing, init);
      var tail := if h in existing then [] else [DefaultItem(h)];
      LayoutGroupsAppend(Missing(existing, init), tail);
      assert LayoutGroups(tail) == if h in existing then {} else {h} by {
        assert tail != [] ==> tail[..0] == [];
      }
      MissingGroupsStep(existing, order);
    }
  }

  /** One item per missing group: as many items as visited groups that were
      missing, when the visit lists each group once. */
  lemma {:induction false} MissingCount(existing: set<string>, order: seq<string>)
    requires forall i, j :: 0 <= i < j < |order| ==> order[i] != order[j]
    ensures |Missing(existing, order)| == |MissingGroups(existing, order)|
  {
    if order != [] {
      var init, h := order[..|order| - 1], order[|order| - 1];
      MissingCount(existing, init);
      assert h !in MissingGroups(existing, init);
      MissingGroupsStep(existing, order);
    }
  }

  lemma EnumeratedMissing(existing: set<string>, groups: set<string>, order: seq<string>)
    requires IsEnumeration(order, groups)
    ensures MissingGroups(existing, order) == groups - existing
  {
  }

  /** After the sync, every discovered group is named by the layout, and
      exactly one item was added per group that was missing. */
  lemma SyncCoversGroups(layout: seq<Value>, groups: set<string>, order: seq<string>)
    requires IsEnumeration(order, groups)
    ensures LayoutGroups(layout + Missing(LayoutGroups(layout), order)) == LayoutGroups(layout) + groups
    ensures |Missing(LayoutGroups(layout), order)| == |groups - LayoutGroups(layout)|
  {
    var existing := LayoutGroups(layout);
    var added := Missing(existing, order);
    EnumeratedMissing(existing, groups, order);
    MissingNamesMissingGroups(existing, order);
    MissingCount(existing, order);
    LayoutGroupsAppend(layout, added);
  }

  lemma {:induction false} NothingMissing(existing: set<string>, order: seq<string>)
    requires forall g :: g in order ==> g in existing
    ensures Missing(existing, order) == []
  {
    if order != [] {
      NothingMissing(existing, order[..|order| - 1]);
    }
  }

  /** Layout additivity: a second sync with the same groups, in any order,
      adds nothing. */
  lemma SyncTwiceAddsNothing(layout: seq<Value>, groups: set<string>, first: seq<string>, second: seq<string>)
    requires IsEnumeration(first, groups) && IsEnumeration(second, groups)
    ensures Missing(LayoutGroups(layout + Missing(LayoutGroups(layout), first)), second) == []
  {
    SyncCoversGroups(layout, groups, first);
    NothingMissing(LayoutGroups(layout + Missing(LayoutGroups(layout), first)), second);
  }

  /** On the text of settings.yaml: once rewritten, a second sync with the
      same groups leaves it untouched, provided the YAML library reads back
      what it writes. */
  lemma SecondSyncLeavesSettings(text: string, groups: set<string>, first: seq<string>, second: seq<string>, codec: Codec)
    requires IsEnumeration(first, groups) && IsEnumeration(second, groups)
    requires forall s :: codec.decodeSettings(codec.encodeSettings(s)) == Some(s)
    requires SyncSettings(text, first, codec).Rewritten?
    ensures SyncSettings(SyncSettings(text, first, codec).text, second, codec) == Untouched
  {
    var settings := codec.decodeSettings(text).value;
    var layout := settings["layout"].items;
    var updated := settings["layout" := List(layout + Missing(LayoutGroups(layout), first))];
    assert codec.decodeSettings(codec.encodeSettings(updated)) == Some(updated);
    SyncTwiceAddsNothing(layout, groups, first, second);
  }
}
