/**
 * The local logic of the accordion hook: the focused-key state cell, the
 * defaulting of omitted options, the `??` fallback for the default selected
 * keys, the `hasChildItems` normalisation of children, and the derived
 * `isSplitted` and `shouldFilterDOMProps` values.
 *
 * The selection/expansion state itself belongs to a tree-state library that
 * is not part of this model.
 */
module UseAccordion {
  import opened Wrappers

  /** A collection item key (React's `Key`). */
  type Key = string

  // ---------------------------------------------------------------------
  // Focus tracking

  /** The `focusedKey` state cell: `null` at first, written by two handlers. */
  class FocusTracker {
    var focusedKey: Option<Key>

    constructor ()
      ensures focusedKey == None
    {
      focusedKey := None;
    }

    /** `handleFocusChanged(isFocused, key)`: only a focus gain is recorded, and it records `key` even when that is null. */
    method HandleFocusChanged(isFocused: bool, key: Option<Key>)
      modifies this
      ensures focusedKey == if isFocused then key else old(focusedKey)
    {
      if isFocused {
        focusedKey := key;
      }
    }

    /** The `selectionManager.setFocusedKey` override: records `key` unconditionally. */
    method SetFocusedKey(key: Option<Key>)
      modifies this
      ensures focusedKey == key
    {
      focusedKey := key;
    }
  }

  /** A blur is ignored and a focus is recorded, starting from a fresh tracker. */
  method FocusThenBlur(key: Key, other: Key) returns (initial: Option<Key>, afterBlur: Option<Key>, afterFocus: Option<Key>, afterOverride: Option<Key>)
    ensures initial == None
    ensures afterBlur == None
    ensures afterFocus == Some(key)
    ensures afterOverride == Some(other)
  {
    var tracker := new FocusTracker();
    initial := tracker.focusedKey;
    tracker.HandleFocusChanged(false, Some(key));
    afterBlur := tracker.focusedKey;
    tracker.HandleFocusChanged(true, Some(key));
    tracker.HandleFocusChanged(false, Some(other));
    afterFocus := tracker.focusedKey;
    tracker.SetFocusedKey(Some(other));
    afterOverride := tracker.focusedKey;
  }

  // ---------------------------------------------------------------------
  // Options and their defaults

  datatype SelectionMode = NoSelection | Single | Multiple
  datatype SelectionBehavior = Toggle | Replace

  /** `"all"` or a set of keys. */
  datatype Selection = AllKeys | KeySet(keys: set<Key>)

  /** What the `as` prop names: an intrinsic tag such as "div", or a component. */
  datatype ElementType = Tag(name: string) | Component(id: nat)

  /** JavaScript truthiness of an `as` value: only the empty tag name is falsy. */
  predicate ElementTypeTruthy(e: ElementType)
  {
    !(e.Tag? && e.name == "")
  }

  /** The props the hook reads; `None` stands for an omitted (undefined) prop. */
  datatype AccordionProps = AccordionProps(
    elementType: Option<ElementType>,
    variant: Option<string>,
    selectionMode: Option<SelectionMode>,
    selectionBehavior: Option<SelectionBehavior>,
    keepContentMounted: Option<bool>,
    isCompact: Option<bool>,
    isDisabled: Option<bool>,
    showDivider: Option<bool>,
    hideIndicator: Option<bool>,
    disableAnimation: Option<bool>,
    disableIndicatorAnimation: Option<bool>,
    dividerProps: Option<map<string, string>>,
    defaultSelectedKeys: Nullish<Selection>,
    defaultExpandedKeys: Nullish<Selection>)

  /** The values the hook derives from its props. */
  datatype Settings = Settings(
    component: ElementType,
    shouldFilterDOMProps: bool,
    isSplitted: bool,
    selectionMode: SelectionMode,
    selectionBehavior: SelectionBehavior,
    keepContentMounted: bool,
    isCompact: bool,
    isDisabled: bool,
    showDivider: bool,
    hideIndicator: bool,
    disableAnimation: bool,
    disableIndicatorAnimation: bool,
    dividerProps: map<string, string>,
    defaultSelectedKeys: Nullish<Selection>)

  /** `as || "div"`: the rendered component is never falsy. */
  function ResolveComponent(elementType: Option<ElementType>): (c: ElementType)
    ensures ElementTypeTruthy(c)
    ensures elementType.Some? && ElementTypeTruthy(elementType.value) ==> c == elementType.value
    ensures elementType.None? || !ElementTypeTruthy(elementType.value) ==> c == Tag("div")
  {
    if elementType.Some? && ElementTypeTruthy(elementType.value) then elementType.value else Tag("div")
  }

  /** `typeof Component === "string"`: DOM props are filtered for intrinsic tags only. */
  function ShouldFilterDOMProps(c: ElementType): (r: bool)
    ensures r <==> exists name :: c == Tag(name)
  {
    c.Tag?
  }

  /** `variant === "splitted"`. */
  function IsSplitted(variant: Option<string>): (r: bool)
    ensures r ==> variant.Some?
    ensures variant.Some? ==> (r <==> variant.value == "splitted")
  {
    variant == Some("splitted")
  }

  /** `defaultSelectedKeys ?? defaultExpandedKeys`. */
  function DefaultSelectedKeys(selected: Nullish<Selection>, expanded: Nullish<Selection>): (r: Nullish<Selection>)
    ensures selected.Value? ==> r == selected
    ensures !selected.Value? ==> r == expanded
  {
    match selected
    case Value(_) => selected
    case _ => expanded
  }

  /** The hook's destructuring defaults and derived values. */
  function Resolve(p: AccordionProps): (s: Settings)
    ensures ElementTypeTruthy(s.component)
    ensures s.shouldFilterDOMProps <==> s.component.Tag?
    ensures s.isSplitted <==> p.variant == Some("splitted")
    ensures p.selectionMode.None? ==> s.selectionMode == Single
    ensures p.selectionMode.Some? ==> s.selectionMode == p.selectionMode.value
    ensures p.selectionBehavior.None? ==> s.selectionBehavior == Toggle
    ensures p.selectionBehavior.Some? ==> s.selectionBehavior == p.selectionBehavior.value
    ensures p.keepContentMounted.None? ==> !s.keepContentMounted
    ensures p.keepContentMounted.Some? ==> s.keepContentMounted == p.keepContentMounted.value
    ensures p.isCompact.None? ==> !s.isCompact
    ensures p.isCompact.Some? ==> s.isCompact == p.isCompact.value
    ensures p.isDisabled.None? ==> !s.isDisabled
    ensures p.isDisabled.Some? ==> s.isDisabled == p.isDisabled.value
    ensures p.showDivider.None? ==> s.showDivider
    ensures p.showDivider.Some? ==> s.showDivider == p.showDivider.value
    ensures p.hideIndicator.None? ==> !s.hideIndicator
    ensures p.hideIndicator.Some? ==> s.hideIndicator == p.hideIndicator.value
    ensures p.disableAnimation.None? ==> !s.disableAnimation
    ensures p.disableAnimation.Some? ==> s.disableAnimation == p.disableAnimation.value
    ensures p.disableIndicatorAnimation.None? ==> !s.disableIndicatorAnimation
    ensures p.disableIndicatorAnimation.Some? ==> s.disableIndicatorAnimation == p.disableIndicatorAnimation.value
    ensures p.dividerProps.None? ==> s.dividerProps == map[]
    ensures p.dividerProps.Some? ==> s.dividerProps == p.dividerProps.value
    ensures p.defaultSelectedKeys.Value? ==> s.defaultSelectedKeys == p.defaultSelectedKeys
    ensures !p.defaultSelectedKeys.Value? ==> s.defaultSelectedKeys == p.defaultExpandedKeys
  {
    var component := ResolveComponent(p.elementType);
    Settings(
      component,
      ShouldFilterDOMProps(component),
      IsSplitted(p.variant),
      p.selectionMode.GetOr(Single),
      p.selectionBehavior.GetOr(Toggle),
      p.keepContentMounted.GetOr(false),
      p.isCompact.GetOr(false),
      p.isDisabled.GetOr(false),
      p.showDivider.GetOr(true),
      p.hideIndicator.GetOr(false),
      p.disableAnimation.GetOr(false),
      p.disableIndicatorAnimation.GetOr(false),
      p.dividerProps.GetOr(map[]),
      DefaultSelectedKeys(p.defaultSelectedKeys, p.defaultExpandedKeys))
  }

  const NoProps := AccordionProps(None, None, None, None, None, None, None, None, None, None, None, None, Undefined, Undefined)

  /** With every prop omitted: a "div" with DOM-prop filtering, single selection with toggle, dividers on, every flag off. */
  lemma OmittedPropsDefaults()
    ensures Resolve(NoProps) == Settings(Tag("div"), true, false, Single, Toggle, false, false, false, true,
                                         false, false, false, map[], Undefined)
  {
  }

  /** A supplied prop wins over its default, whatever the other props are. */
  lemma SuppliedPropsKept(p: AccordionProps)
    ensures p.elementType.Some? && ElementTypeTruthy(p.elementType.value) ==> Resolve(p).component == p.elementType.value
    ensures p.selectionMode.Some? ==> Resolve(p).selectionMode == p.selectionMode.value
    ensures p.selectionBehavior.Some? ==> Resolve(p).selectionBehavior == p.selectionBehavior.value
    ensures p.keepContentMounted.Some? ==> Resolve(p).keepContentMounted == p.keepContentMounted.value
    ensures p.isCompact.Some? ==> Resolve(p).isCompact == p.isCompact.value
    ensures p.isDisabled.Some? ==> Resolve(p).isDisabled == p.isDisabled.value
    ensures p.showDivider.Some? ==> Resolve(p).showDivider == p.showDivider.value
    ensures p.hideIndicator.Some? ==> Resolve(p).hideIndicator == p.hideIndicator.value
    ensures p.disableAnimation.Some? ==> Resolve(p).disableAnimation == p.disableAnimation.value
    ensures p.disableIndicatorAnimation.Some? ==> Resolve(p).disableIndicatorAnimation == p.disableIndicatorAnimation.value
    ensures p.dividerProps.Some? ==> Resolve(p).dividerProps == p.dividerProps.value
  {
  }

  // ---------------------------------------------------------------------
  // Children normalisation (`treeChildren`)

  /**
   * A child passed to the accordion: a valid React element (with whether its own
   * `props.children` is a string, and its `hasChildItems` prop if set), or anything else.
   */
  datatype Child =
    | Element(id: nat, childrenIsString: bool, hasChildItems: Option<bool>)
    | NonElement(id: nat)

  /** `React.isValidElement(child) && typeof child.props?.children !== "string"`. */
  predicate NeedsMarking(c: Child)
  {
    c.Element? && !c.childrenIsString
  }

  /** `React.cloneElement(child, {hasChildItems: false})` for the children that need it. */
  function Normalized(c: Child): (r: Child)
    ensures NeedsMarking(c) ==> r == c.(hasChildItems := Some(false))
    ensures !NeedsMarking(c) ==> r == c
  {
    if NeedsMarking(c) then c.(hasChildItems := Some(false)) else c
  }

  /** The `React.Children.map` pass that pushes each (possibly cloned) child onto `treeChildren`. */
  method NormalizeChildren(children: seq<Child>) returns (treeChildren: seq<Child>)
    ensures |treeChildren| == |children|
    ensures forall i :: 0 <= i < |children| ==> treeChildren[i] == Normalized(children[i])
  {
    treeChildren := [];
    for i := 0 to |children|
      invariant |treeChildren| == i
      invariant forall j :: 0 <= j < i ==> treeChildren[j] == Normalized(children[j])
    {
      var child := children[i];
      if child.Element? && !child.childrenIsString {
        var clonedChild := child.(hasChildItems := Some(false));
        treeChildren := treeChildren + [clonedChild];
      } else {
        treeChildren := treeChildren + [child];
      }
    }
  }

  /** After normalisation a child carries `hasChildItems: false` exactly when it is an element that needed it or already had it. */
  lemma NormalizedMarksIff(c: Child)
    ensures Normalized(c).Element? <==> c.Element?
    ensures Normalized(c).id == c.id
    ensures c.Element? ==> (Normalized(c).hasChildItems == Some(false) <==> NeedsMarking(c) || c.hasChildItems == Some(false))
    ensures c.Element? ==> Normalized(c).childrenIsString == c.childrenIsString
  {
  }
}
