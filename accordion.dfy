/**
 * The accordion's render plan: the collection's items in order, each with
 * its merged class names, a divider after every item but the last when
 * dividers are shown, and the whole optionally wrapped in a layout group.
 */
module Accordion {
  import opened Wrappers
  import Clsx
  import UseAccordion

  type Key = UseAccordion.Key

  /** Per-slot class values of an accordion item (a slot name to a class-name value). */
  type ClassNames = map<string, Clsx.Val>

  /** A collection item: its key and its own `classNames` prop, if any. */
  datatype Item = Item(key: Key, classNames: Option<ClassNames>)

  /** One entry of the rendered content. */
  datatype Entry = ItemEntry(key: Key, classNames: ClassNames) | Divider

  /** The content, bare or inside a layout group. */
  datatype Rendered = Bare(content: seq<Entry>) | InLayoutGroup(content: seq<Entry>)

  /** `{...itemClasses, ...(item.props.classNames || {})}`: a key-wise override. */
  function MergeClassNames(itemClasses: Option<ClassNames>, own: Option<ClassNames>): (r: ClassNames)
    ensures r.Keys == itemClasses.GetOr(map[]).Keys + own.GetOr(map[]).Keys
    ensures forall slot :: slot in own.GetOr(map[]) ==> r[slot] == own.value[slot]
    ensures forall slot :: slot in itemClasses.GetOr(map[]) && slot !in own.GetOr(map[]) ==> r[slot] == itemClasses.value[slot]
  {
    itemClasses.GetOr(map[]) + own.GetOr(map[])
  }

  /** `!isSplitted && showDivider`. */
  predicate ShowsDividers(isSplitted: bool, showDivider: bool)
  {
    !isSplitted && showDivider
  }

  function EntryFor(items: seq<Item>, i: nat, itemClasses: Option<ClassNames>): Entry
    requires i < |items|
  {
    ItemEntry(items[i].key, MergeClassNames(itemClasses, items[i].classNames))
  }

  /** The fragment the map callback returns for the item at `index`. */
  function Fragment(items: seq<Item>, index: nat, isSplitted: bool, showDivider: bool, itemClasses: Option<ClassNames>): (r: seq<Entry>)
    requires index < |items|
    ensures 1 <= |r| <= 2
    ensures r[0] == ItemEntry(items[index].key, MergeClassNames(itemClasses, items[index].classNames))
    ensures |r| == 2 <==> !isSplitted && showDivider && index < |items| - 1
    ensures |r| == 2 ==> r[1] == Divider
  {
    [EntryFor(items, index, itemClasses)] +
    (if ShowsDividers(isSplitted, showDivider) && index < |items| - 1 then [Divider] else [])
  }

  /** The fragments of the items from `from` on, concatenated. */
  function ContentFrom(items: seq<Item>, from: nat, isSplitted: bool, showDivider: bool, itemClasses: Option<ClassNames>): (r: seq<Entry>)
    requires from <= |items|
    ensures |r| == if ShowsDividers(isSplitted, showDivider) && from < |items| then 2 * (|items| - from) - 1 else |items| - from
    decreases |items| - from
  {
    if from == |items| then []
    else Fragment(items, from, isSplitted, showDivider, itemClasses) + ContentFrom(items, from + 1, isSplitted, showDivider, itemClasses)
  }

  /** `[...state.collection].map(...)`: the accordion's content. */
  function Content(items: seq<Item>, isSplitted: bool, showDivider: bool, itemClasses: Option<ClassNames>): (r: seq<Entry>)
    ensures ShowsDividers(isSplitted, showDivider) && items != [] ==>
      |r| == 2 * |items| - 1 &&
      forall k :: 0 <= k < |r| ==> r[k] == if k % 2 == 0 then EntryFor(items, k / 2, itemClasses) else Divider
    ensures !ShowsDividers(isSplitted, showDivider) ==>
      |r| == |items| && forall k :: 0 <= k < |r| ==> r[k] == EntryFor(items, k, itemClasses)
    ensures items == [] ==> r == []
  {
    if ShowsDividers(isSplitted, showDivider) && items != [] then
      ContentFromWithDividers(items, 0, isSplitted, showDivider, itemClasses);
      ContentFrom(items, 0, isSplitted, showDivider, itemClasses)
    else if !ShowsDividers(isSplitted, showDivider) then
      ContentFromWithoutDividers(items, 0, isSplitted, showDivider, itemClasses);
      ContentFrom(items, 0, isSplitted, showDivider, itemClasses)
    else
      ContentFrom(items, 0, isSplitted, showDivider, itemClasses)
  }

  /** `disableAnimation ? content : <LayoutGroup>{content}</LayoutGroup>`. */
  function Render(items: seq<Item>, isSplitted: bool, showDivider: bool, disableAnimation: bool, itemClasses: Option<ClassNames>): (r: Rendered)
    ensures r.Bare? <==> disableAnimation
  {
    var content := Content(items, isSplitted, showDivider, itemClasses);
    if disableAnimation then Bare(content) else InLayoutGroup(content)
  }

  /** The item entries of a content sequence, dividers dropped. */
  function ItemsOf(es: seq<Entry>): (r: seq<Entry>)
    ensures forall j :: 0 <= j < |r| ==> r[j].ItemEntry?
  {
    if es == [] then [] else (if es[0].ItemEntry? then [es[0]] else []) + ItemsOf(es[1..])
  }

  function CountDividers(es: seq<Entry>): nat
  {
    if es == [] then 0 else (if es[0] == Divider then 1 else 0) + CountDividers(es[1..])
  }

  // ---------------------------------------------------------------------
  // Lemmas

  lemma {:induction false} ItemsOfAppend(a: seq<Entry>, b: seq<Entry>)
    ensures ItemsOf(a + b) == ItemsOf(a) + ItemsOf(b)
    decreases |a|
  {
    if a == [] {
      assert a + b == b;
    } else {
      assert (a + b)[0] == a[0];
      assert (a + b)[1..] == a[1..] + b;
      ItemsOfAppend(a[1..], b);
    }
  }

  lemma {:induction false} CountDividersAppend(a: seq<Entry>, b: seq<Entry>)
    ensures CountDividers(a + b) == CountDividers(a) + CountDividers(b)
    decreases |a|
  {
    if a == [] {
      assert a + b == b;
    } else {
      assert (a + b)[0] == a[0];
      assert (a + b)[1..] == a[1..] + b;
      CountDividersAppend(a[1..], b);
    }
  }

  /** The item entries of the items from `from` on, one per item, in collection order. */
  function EntriesFrom(items: seq<Item>, from: nat, itemClasses: Option<ClassNames>): (r: seq<Entry>)
    requires from <= |items|
    ensures |r| == |items| - from
    ensures forall k :: 0 <= k < |r| ==> r[k] == EntryFor(items, from + k, itemClasses)
    decreases |items| - from
  {
    if from == |items| then [] else [EntryFor(items, from, itemClasses)] + EntriesFrom(items, from + 1, itemClasses)
  }

  /** Without dividers the content is exactly the items' entries, in collection order. */
  lemma {:induction false} ContentFromWithoutDividers(items: seq<Item>, from: nat, isSplitted: bool, showDivider: bool, itemClasses: Option<ClassNames>)
    requires from <= |items| && !ShowsDividers(isSplitted, showDivider)
    ensures ContentFrom(items, from, isSplitted, showDivider, itemClasses) == EntriesFrom(items, from, itemClasses)
    decreases |items| - from
  {
    if from < |items| {
      ContentFromWithoutDividers(items, from + 1, isSplitted, showDivider, itemClasses);
      assert Fragment(items, from, isSplitted, showDivider, itemClasses) == [EntryFor(items, from, itemClasses)];
    }
  }

  /** Entries with a divider between each neighbouring pair. */
  function Interleave(es: seq<Entry>): seq<Entry>
  {
    if |es| <= 1 then es else [es[0], Divider] + Interleave(es[1..])
  }

  /** What an interleaving holds at position `k`: an entry at even positions, a divider at odd ones. */
  function Slot(es: seq<Entry>, k: nat): Entry
    requires k / 2 < |es|
  {
    if k % 2 == 0 then es[k / 2] else Divider
  }

  /** Two positions further on in `es` is the same slot of `es[1..]`. */
  lemma SlotShift(es: seq<Entry>, k: nat)
    requires 2 <= k && k / 2 < |es|
    ensures (k - 2) / 2 < |es[1..]| && Slot(es[1..], k - 2) == Slot(es, k)
  {
    assert (k - 2) % 2 == k % 2 && (k - 2) / 2 + 1 == k / 2;
  }

  /** In an interleaving the entries sit at even positions and the dividers at odd ones. */
  lemma {:induction false} InterleaveAt(es: seq<Entry>)
    requires es != []
    ensures |Interleave(es)| == 2 * |es| - 1
    ensures forall k: nat :: k < |Interleave(es)| ==> k / 2 < |es| && Interleave(es)[k] == Slot(es, k)
  {
    if |es| > 1 {
      InterleaveAt(es[1..]);
      var c := Interleave(es);
      var rest := Interleave(es[1..]);
      assert c == [es[0], Divider] + rest;
      forall k: nat | k < |c|
        ensures k / 2 < |es| && c[k] == Slot(es, k)
      {
        if k >= 2 {
          assert c[k] == rest[k - 2];
          SlotShift(es, k);
        } else if k == 1 {
          assert 1 / 2 == 0 && 1 % 2 == 1;
        } else {
          assert 0 / 2 == 0 && 0 % 2 == 0;
        }
      }
    }
  }

  /** With dividers shown, the content is the items' entries interleaved with dividers. */
  lemma {:induction false} ContentFromInterleaves(items: seq<Item>, from: nat, isSplitted: bool, showDivider: bool, itemClasses: Option<ClassNames>)
    requires from <= |items| && ShowsDividers(isSplitted, showDivider)
    ensures ContentFrom(items, from, isSplitted, showDivider, itemClasses) == Interleave(EntriesFrom(items, from, itemClasses))
    decreases |items| - from
  {
    if from < |items| {
      ContentFromInterleaves(items, from + 1, isSplitted, showDivider, itemClasses);
      var es := EntriesFrom(items, from, itemClasses);
      assert es[1..] == EntriesFrom(items, from + 1, itemClasses);
      if from < |items| - 1 {
        assert Fragment(items, from, isSplitted, showDivider, itemClasses) == [EntryFor(items, from, itemClasses), Divider];
      } else {
        assert Fragment(items, from, isSplitted, showDivider, itemClasses) == [EntryFor(items, from, itemClasses)];
      }
    }
  }

  /** With dividers the entries alternate: items at even positions, dividers at odd ones, none at the end. */
  lemma ContentFromWithDividers(items: seq<Item>, from: nat, isSplitted: bool, showDivider: bool, itemClasses: Option<ClassNames>)
    requires from < |items| && ShowsDividers(isSplitted, showDivider)
    ensures var c := ContentFrom(items, from, isSplitted, showDivider, itemClasses);
      |c| == 2 * (|items| - from) - 1 &&
      forall k :: 0 <= k < |c| ==> c[k] == if k % 2 == 0 then EntryFor(items, from + k / 2, itemClasses) else Divider
  {
    ContentFromInterleaves(items, from, isSplitted, showDivider, itemClasses);
    var es := EntriesFrom(items, from, itemClasses);
    InterleaveAt(es);
    var c := ContentFrom(items, from, isSplitted, showDivider, itemClasses);
    forall k | 0 <= k < |c|
      ensures c[k] == if k % 2 == 0 then EntryFor(items, from + k / 2, itemClasses) else Divider
    {
      assert c[k] == Slot(es, k);
    }
  }

  /** Where the item at index `i` stands in the content. */
  function Position(i: nat, isSplitted: bool, showDivider: bool): nat
  {
    if ShowsDividers(isSplitted, showDivider) then 2 * i else i
  }

  /** Every item appears at its position, keyed by its own key and with its merged class names. */
  lemma ItemAtPosition(items: seq<Item>, i: nat, isSplitted: bool, showDivider: bool, itemClasses: Option<ClassNames>)
    requires i < |items|
    ensures var c := Content(items, isSplitted, showDivider, itemClasses);
      Position(i, isSplitted, showDivider) < |c| &&
      c[Position(i, isSplitted, showDivider)] == ItemEntry(items[i].key, MergeClassNames(itemClasses, items[i].classNames))
  {
    if ShowsDividers(isSplitted, showDivider) {
      ContentFromWithDividers(items, 0, isSplitted, showDivider, itemClasses);
      assert (2 * i) % 2 == 0 && (2 * i) / 2 == i;
    } else {
      ContentFromWithoutDividers(items, 0, isSplitted, showDivider, itemClasses);
    }
  }

  /** A divider follows the item at index `i` exactly when `!isSplitted && showDivider && i < size - 1`. */
  lemma DividerAfterIff(items: seq<Item>, i: nat, isSplitted: bool, showDivider: bool, itemClasses: Option<ClassNames>)
    requires i < |items|
    ensures var c := Content(items, isSplitted, showDivider, itemClasses);
      var p := Position(i, isSplitted, showDivider);
      (p + 1 < |c| && c[p + 1] == Divider) <==> !isSplitted && showDivider && i < |items| - 1
  {
    var c := Content(items, isSplitted, showDivider, itemClasses);
    if ShowsDividers(isSplitted, showDivider) {
      ContentFromWithDividers(items, 0, isSplitted, showDivider, itemClasses);
      if 2 * i + 1 < |c| {
        assert (2 * i + 1) % 2 == 1;
      }
    } else {
      ContentFromWithoutDividers(items, 0, isSplitted, showDivider, itemClasses);
    }
  }

  /** The last item is never followed by anything, a divider included. */
  lemma LastItemEndsContent(items: seq<Item>, isSplitted: bool, showDivider: bool, itemClasses: Option<ClassNames>)
    requires items != []
    ensures Position(|items| - 1, isSplitted, showDivider) + 1 == |Content(items, isSplitted, showDivider, itemClasses)|
  {
    if ShowsDividers(isSplitted, showDivider) {
      ContentFromWithDividers(items, 0, isSplitted, showDivider, itemClasses);
    } else {
      ContentFromWithoutDividers(items, 0, isSplitted, showDivider, itemClasses);
    }
  }

  /** Dropping the dividers leaves each item exactly once, in collection order. */
  lemma {:induction false} ItemsOfContentFrom(items: seq<Item>, from: nat, isSplitted: bool, showDivider: bool, itemClasses: Option<ClassNames>)
    requires from <= |items|
    ensures ItemsOf(ContentFrom(items, from, isSplitted, showDivider, itemClasses)) == EntriesFrom(items, from, itemClasses)
    decreases |items| - from
  {
    if from < |items| {
      var frag := Fragment(items, from, isSplitted, showDivider, itemClasses);
      ItemsOfContentFrom(items, from + 1, isSplitted, showDivider, itemClasses);
      ItemsOfAppend(frag, ContentFrom(items, from + 1, isSplitted, showDivider, itemClasses));
      assert frag == [EntryFor(items, from, itemClasses)] + frag[1..];
      ItemsOfAppend([EntryFor(items, from, itemClasses)], frag[1..]);
      assert ItemsOf(frag[1..]) == [] by {
        assert frag[1..] == [] || frag[1..] == [Divider];
      }
    }
  }

  /** Dividers number `size - from - 1` from `from` on when shown, else none. */
  lemma {:induction false} DividersOfContentFrom(items: seq<Item>, from: nat, isSplitted: bool, showDivider: bool, itemClasses: Option<ClassNames>)
    requires from <= |items|
    ensures CountDividers(ContentFrom(items, from, isSplitted, showDivider, itemClasses)) ==
            if ShowsDividers(isSplitted, showDivider) && from < |items| then |items| - from - 1 else 0
    decreases |items| - from
  {
    if from < |items| {
      var frag := Fragment(items, from, isSplitted, showDivider, itemClasses);
      DividersOfContentFrom(items, from + 1, isSplitted, showDivider, itemClasses);
      CountDividersAppend(frag, ContentFrom(items, from + 1, isSplitted, showDivider, itemClasses));
      if ShowsDividers(isSplitted, showDivider) && from < |items| - 1 {
        assert frag == [EntryFor(items, from, itemClasses), Divider];
      } else {
        assert frag == [EntryFor(items, from, itemClasses)];
      }
    }
  }

  /** Every collection item appears exactly once among the item entries, in collection order, keyed by its key. */
  lemma ItemsInCollectionOrder(items: seq<Item>, isSplitted: bool, showDivider: bool, itemClasses: Option<ClassNames>)
    ensures var c := Content(items, isSplitted, showDivider, itemClasses);
      |ItemsOf(c)| == |items| &&
      forall i :: 0 <= i < |items| ==> ItemsOf(c)[i] == ItemEntry(items[i].key, MergeClassNames(itemClasses, items[i].classNames))
  {
    ItemsOfContentFrom(items, 0, isSplitted, showDivider, itemClasses);
  }

  /** With dividers enabled n items give n - 1 dividers; with them disabled, none at all. */
  lemma DividerCount(items: seq<Item>, isSplitted: bool, showDivider: bool, itemClasses: Option<ClassNames>)
    ensures var c := Content(items, isSplitted, showDivider, itemClasses);
      CountDividers(c) == (if ShowsDividers(isSplitted, showDivider) && items != [] then |items| - 1 else 0)
  {
    DividersOfContentFrom(items, 0, isSplitted, showDivider, itemClasses);
  }

  /** `isSplitted` or `!showDivider`: no divider anywhere in the content. */
  lemma NoDividersWhenDisabled(items: seq<Item>, isSplitted: bool, showDivider: bool, itemClasses: Option<ClassNames>)
    requires isSplitted || !showDivider
    ensures Divider !in Content(items, isSplitted, showDivider, itemClasses)
  {
    ContentFromWithoutDividers(items, 0, isSplitted, showDivider, itemClasses);
  }

  /** An item without its own class names gets exactly `itemClasses`, as if it had `{}`. */
  lemma MissingClassNamesActAsEmpty(itemClasses: Option<ClassNames>)
    ensures MergeClassNames(itemClasses, None) == MergeClassNames(itemClasses, Some(map[])) == itemClasses.GetOr(map[])
  {
  }

  /** `disableAnimation` only decides the wrapper: the entries are the same either way. */
  lemma AnimationOnlyWraps(items: seq<Item>, isSplitted: bool, showDivider: bool, itemClasses: Option<ClassNames>)
    ensures Render(items, isSplitted, showDivider, true, itemClasses).content ==
            Render(items, isSplitted, showDivider, false, itemClasses).content ==
            Content(items, isSplitted, showDivider, itemClasses)
  {
  }
}
