# nextui accordion and utilities, modelled in Dafny

This project models four small pieces of logic from the nextui component library and proves properties about them.

- **`clsx`** (`Clsx` module). This is the class-name concatenator.
  - `toVal` and `clsx` are modelled as methods with the source's loops: a `for` over array indices, a `for` over object keys, and a `while` over the arguments.
  - Each method is proved equal to a reference function. The reference joins the non-empty contributions with one space, in order.
  - Inputs are a datatype of JavaScript values: strings, integral numbers, arrays, objects as an ordered key/value list, `null`, `undefined`, booleans and functions.
- **User-agent classification** (`Dom` module). This covers `getUserAgentBrowser`, `getUserAgentOS`, `detectDeviceType`, `detectOS` and `detectBrowser`.
  - Each classifier is a first-match decision list over the `Navigator` strings.
  - Each regular expression becomes a small predicate: a substring test, an ASCII case-insensitive substring test, or the anchored `Firefox/<digits>.<digits>` suffix test.
  - Without the `u` flag a `/i` test compares characters after upper-casing them, which relates non-ASCII letters too (`/é/i` matches "É"). Every pattern here is ASCII, and that mapping never takes a non-ASCII character to an ASCII one, so folding the ASCII letters alone gives the same answers.
  - The suffix test is proved equivalent to the shape the regular expression describes.
- **The accordion's render plan** (`Accordion` module). This is the content `AccordionGroup` builds.
  - Each collection item becomes an entry carrying its key and its merged class names.
  - A divider follows every item but the last when dividers are shown.
  - The content is optionally wrapped in a layout group.
- **The accordion hook's local logic** (`UseAccordion` module).
  - The `focusedKey` state cell is a class with two mutating handlers.
  - The destructuring defaults and the `defaultSelectedKeys ?? defaultExpandedKeys` fallback are modelled.
  - So are the derived `Component`, `shouldFilterDOMProps` and `isSplitted` values.
  - The `treeChildren` pass that marks elements with `hasChildItems: false` is a method with a loop.

`wrappers.dfy` holds two value wrappers:
- `Option` stands for a prop that may be omitted (`undefined`).
- `Nullish` distinguishes `undefined`, `null` and a value, for the `??` operator.

Three behaviours of the code as written are stated as lemmas:
- **Empty object keys in `clsx`.** A truthy value under an empty key `""` still gets a separator once something precedes it, so `{a: 1, "": 1, b: 1}` flattens to `"a  b"` with two spaces (`Clsx.EmptyKeyKeepsSeparator`). The reference specification for objects therefore only drops the *leading* empty keys. With non-empty keys it is the plain join of the truthy keys (`Clsx.ObjectGivesTruthyKeys`).
- **The Safari rule.** It tests `"Apple Computer"` against the user agent, not the vendor. A Safari navigator whose user agent lacks that phrase is therefore classified `"WebKit"`. `Dom.DesktopSafariIsWebKit` shows this on the sample user agent `"AppleWebKit/605 Safari/605"` with vendor `"Apple Computer, Inc."`, and `Dom.WebKitIff` states exactly when `"WebKit"` is the answer. The model keeps this behaviour as written.
- **Android matching.** The OS classifier tests `Android` case-sensitively, while the browser classifier tests `android` case-insensitively. A user agent with no capital letters that contains `android` is therefore browser `"AOSP"` but never OS `"Android"`; its OS is `null` unless the platform names iOS, Windows or Mac (`Dom.LowercaseAndroid`).

## Model

| member | source | states |
|---|---|---|
| Clsx.ToVal | packages/utilities/shared-utils/src/clsx.ts:4-37 | The loop-based flattening equals the reference `Flatten`: strings and numbers pass through, arrays give the single-space join of their non-empty truthy elements' flattenings in order, objects give their truthy keys in key order, and anything else gives "" |
| Clsx.Clsx | packages/utilities/shared-utils/src/clsx.ts:39-55 | The `while` loop's result equals the reference `Classes`: the single-space join of the non-empty contributions of the truthy arguments, in argument order |
| Clsx.NumberToString | packages/utilities/shared-utils/src/clsx.ts:10-11 | `"" + n` for an integral number is non-empty and starts with '-' exactly for negative numbers |
| Clsx.NatToString | packages/utilities/shared-utils/src/clsx.ts:10-11 | The decimal rendering of a natural number is a non-empty string of digits |
| Clsx.NonEmpty | packages/utilities/shared-utils/src/clsx.ts:17 | The kept pieces are no more than the input and none is empty |
| Clsx.DropLeadingEmpty | packages/utilities/shared-utils/src/clsx.ts:29 | The object key list starts with a non-empty key once the leading empty keys are dropped, because `str &&` is falsy until something has been appended |
| Clsx.GlueJoin | packages/utilities/shared-utils/src/clsx.ts:19-20 | One `str && (str += " "); str += piece` step on a joined list extends the join by that piece |
| Clsx.JoinSnoc | packages/utilities/shared-utils/src/clsx.ts:49-50 | Appending a piece to a non-empty join adds exactly one space and the piece |
| Clsx.JoinStartsWithFirst | packages/utilities/shared-utils/src/clsx.ts:49-50 | A join begins with its first piece |
| Clsx.NonEmptySnoc | packages/utilities/shared-utils/src/clsx.ts:17 | Filtering out empty pieces distributes over appending one piece |
| Clsx.NonEmptyAppend | packages/utilities/shared-utils/src/clsx.ts:48 | Filtering out empty pieces distributes over concatenation |
| Clsx.ContributionsSnoc | packages/utilities/shared-utils/src/clsx.ts:47-48 | The contributions of an extended argument list are the old ones plus the new argument's |
| Clsx.ContributionsAppend | packages/utilities/shared-utils/src/clsx.ts:46-53 | Contributions distribute over concatenation of argument lists |
| Clsx.TruthyKeysSnoc | packages/utilities/shared-utils/src/clsx.ts:27-31 | One more object entry adds its key exactly when its value is truthy |
| Clsx.DropLeadingEmptySnoc | packages/utilities/shared-utils/src/clsx.ts:27-31 | One iteration of the object loop is one glue step on the reference string of the keys so far |
| Clsx.JoinAppend | packages/utilities/shared-utils/src/clsx.ts:48-51 | Joining two lists of non-empty pieces puts one space at the seam, and only when both sides are non-empty |
| Clsx.ClassesAppend | packages/utilities/shared-utils/src/clsx.ts:46-53 | The class string of concatenated argument lists is the two class strings with a space only between two non-empty halves |
| Clsx.FalsyArgumentIgnored | packages/utilities/shared-utils/src/clsx.ts:47 | A falsy argument (null, undefined, false, 0, "") anywhere in the list changes nothing |
| Clsx.EmptyFlatteningIgnored | packages/utilities/shared-utils/src/clsx.ts:48 | An argument that flattens to "" anywhere in the list changes nothing |
| Clsx.NoArguments | packages/utilities/shared-utils/src/clsx.ts:39-55 | `clsx()` is "" |
| Clsx.ClassesSnoc | packages/utilities/shared-utils/src/clsx.ts:48-51 | A further argument adds its contribution with a separating space only when both sides are non-empty |
| Clsx.NestedArrayFlattens | packages/utilities/shared-utils/src/clsx.ts:14-22 | Wrapping the argument list in one array gives the same class string: arrays flatten recursively in element order |
| Clsx.SingleString | packages/utilities/shared-utils/src/clsx.ts:10-11 | A single non-empty string argument comes back unchanged |
| Clsx.Idempotent | packages/utilities/shared-utils/src/clsx.ts:47-51 | `clsx(clsx(args...)) == clsx(args...)` |
| Clsx.TruthyKeysNoEmpty | packages/utilities/shared-utils/src/clsx.ts:27-31 | With non-empty key names, every emitted key is non-empty |
| Clsx.ObjectGivesTruthyKeys | packages/utilities/shared-utils/src/clsx.ts:27-31 | With non-empty key names, an object gives exactly its truthy keys joined with one space, in key order |
| Clsx.ObjectValuesNotEmitted | packages/utilities/shared-utils/src/clsx.ts:30 | An object contributes the key's name, not its value |
| Clsx.EmptyKeyKeepsSeparator | packages/utilities/shared-utils/src/clsx.ts:28-30 | An empty key after a non-empty one still adds its separator: `{a: 1, "": 1, b: 1}` gives "a  b" |
| Clsx.NonClassValuesFlattenEmpty | packages/utilities/shared-utils/src/clsx.ts:10-12 | Booleans, functions, undefined and null flatten to "" |
| Clsx.FalsyValues | packages/utilities/shared-utils/src/clsx.ts:16-47 | The truthiness tests on array elements, on object values and on arguments reject exactly null, undefined, false, 0 and "" |
| Dom.Lower | packages/utilities/react-utils/src/dom.ts:19 | Lower-casing keeps the length and folds each ASCII capital to its small letter, leaving every other character alone; for the ASCII patterns used this decides the same matches as the `/i` flag |
| Dom.TrailingDigits | packages/utilities/react-utils/src/dom.ts:30 | The counted suffix consists of digits and is maximal: the character before it is not a digit |
| Dom.TrailingDigitsExact | packages/utilities/react-utils/src/dom.ts:30 | A digit suffix not preceded by a digit is exactly the counted trailing run |
| Dom.FirefoxVersionPositions | packages/utilities/react-utils/src/dom.ts:30 | When the suffix test holds, "Firefox/" and the dot sit at positions that give the regular expression's shape |
| Dom.FirefoxVersionSound | packages/utilities/react-utils/src/dom.ts:30 | The suffix test holds only for user agents that end in "Firefox/", one or more digits, ".", one or more digits |
| Dom.FirefoxVersionComplete | packages/utilities/react-utils/src/dom.ts:30 | Every user agent ending in that shape passes the suffix test |
| Dom.FirefoxVersionIff | packages/utilities/react-utils/src/dom.ts:30 | The suffix test decides exactly the anchored pattern `Firefox\/\d+\.\d+$` |
| Dom.DigitRunExtends | packages/utilities/react-utils/src/dom.ts:30 | A trailing digit run grows by one when one more digit ends the string |
| Dom.GetUserAgentBrowser | packages/utilities/react-utils/src/dom.ts:17-43 | "CriOS" always gives "Chrome for iOS", and the result is null exactly when no rule fires |
| Dom.EdgeBeatsChrome | packages/utilities/react-utils/src/dom.ts:24-25 | Without "CriOS", "Edg/" gives "Edge" even when the Chrome rule would also fire |
| Dom.SilkIff | packages/utilities/react-utils/src/dom.ts:19-27 | "Silk" exactly when the user agent contains "android" case-insensitively and "Silk/", and neither "CriOS" nor "Edg/" |
| Dom.ChromeNeedsGoogleVendor | packages/utilities/react-utils/src/dom.ts:28-29 | "Chrome" needs "Chrome" in the user agent and "Google Inc" in the vendor |
| Dom.FirefoxNeedsVersionSuffix | packages/utilities/react-utils/src/dom.ts:30-31 | "Firefox" needs the user agent to end in "Firefox/" digits "." digits |
| Dom.AndroidFallsBackToAOSP | packages/utilities/react-utils/src/dom.ts:19-33 | An android user agent yields one of the rules up to "AOSP", and "AOSP" when no earlier rule fires |
| Dom.VendorOnlyMattersForChrome | packages/utilities/react-utils/src/dom.ts:18-28 | Without "Chrome" in the user agent, neither vendor nor platform changes the browser |
| Dom.SafariReadsUserAgentOnly | packages/utilities/react-utils/src/dom.ts:36-37 | "Safari" needs both "Safari" and "Apple Computer" in the user agent itself |
| Dom.WebKitIff | packages/utilities/react-utils/src/dom.ts:18-39 | "WebKit" exactly when the user agent contains "AppleWebKit" and none of the eight earlier rules fires: no "CriOS", no "Edg/", not android, not "Chrome" with a "Google Inc" vendor, no Firefox version suffix, no "MSIE", no "Trident", and not "Safari" together with "Apple Computer" |
| Dom.SafariAgentLacksCriOS | packages/utilities/react-utils/src/dom.ts:22 | The sample user agent "AppleWebKit/605 Safari/605" does not contain "CriOS" |
| Dom.SafariAgentLacksChrome | packages/utilities/react-utils/src/dom.ts:28 | The sample user agent "AppleWebKit/605 Safari/605" does not contain "Chrome" |
| Dom.SafariAgentLacksAppleComputer | packages/utilities/react-utils/src/dom.ts:36 | The sample user agent "AppleWebKit/605 Safari/605" does not contain "Apple Computer" |
| Dom.SafariAgentTokens | packages/utilities/react-utils/src/dom.ts:24-39 | The sample user agent "AppleWebKit/605 Safari/605" contains neither "Edg/", "MSIE" nor "Trident", but does contain "AppleWebKit" |
| Dom.SafariAgentNotAndroid | packages/utilities/react-utils/src/dom.ts:19 | The sample user agent "AppleWebKit/605 Safari/605" fails the case-insensitive android test |
| Dom.SafariAgentNotFirefox | packages/utilities/react-utils/src/dom.ts:30 | The sample user agent "AppleWebKit/605 Safari/605" does not end in a Firefox version |
| Dom.DesktopSafariIsWebKit | packages/utilities/react-utils/src/dom.ts:36-39 | The sample navigator with user agent "AppleWebKit/605 Safari/605", vendor "Apple Computer, Inc." and platform "MacIntel", whose "Apple Computer" is only in the vendor, is classified "WebKit" |
| Dom.ContainsAt | packages/utilities/react-utils/src/dom.ts:22 | A pattern occurring at some position is found by the substring test |
| Dom.MissingCharNotContained | packages/utilities/react-utils/src/dom.ts:22 | A pattern with a character the string lacks is not found |
| Dom.ContainsIff | packages/utilities/react-utils/src/dom.ts:22-62 | The substring test used for every case-sensitive `.test` finds a pattern exactly when it occurs at some index of the string |
| Dom.OccursAtLower | packages/utilities/react-utils/src/dom.ts:19 | An occurrence in the lower-cased strings is exactly an occurrence ignoring ASCII case |
| Dom.ContainsIgnoreCaseIff | packages/utilities/react-utils/src/dom.ts:73-74 | The case-insensitive test finds a pattern exactly when it occurs at some index with letters compared ignoring ASCII case |
| Dom.LowerWithoutCapitals | packages/utilities/react-utils/src/dom.ts:19 | A string without ASCII capitals is unchanged by lower-casing |
| Dom.GetUserAgentOS | packages/utilities/react-utils/src/dom.ts:47-66 | "Android" in the user agent gives Android, and the result is null exactly when no rule fires |
| Dom.AndroidBeatsPlatform | packages/utilities/react-utils/src/dom.ts:51-52 | "Android" in the user agent gives Android whatever the vendor and platform |
| Dom.IOSBeforeWindowsAndMac | packages/utilities/react-utils/src/dom.ts:53-58 | Without "Android", an iPhone, iPad or iPod platform gives iOS before the Win and Mac tests are reached |
| Dom.LowercaseAndroid | packages/utilities/react-utils/src/dom.ts:17-66 | For every navigator whose user agent has no ASCII capital and contains "android": the browser is "AOSP", the OS is never Android, and the OS is null exactly when the platform contains none of "iPhone", "iPad", "iPod", "Win", "Mac" |
| Dom.DeviceName | packages/utilities/react-utils/src/dom.ts:73-76 | Device names are "tablet", "phone" or "desktop" |
| Dom.DetectDeviceType | packages/utilities/react-utils/src/dom.ts:70-77 | The answer is always one of the three device types; tablet tokens give "tablet" even beside "mobi"; "phone" exactly for "mobi" without tablet tokens; "desktop" exactly when neither is present, all case-insensitively |
| Dom.DetectOS | packages/utilities/react-utils/src/dom.ts:81-85 | False outside a browser; in a browser, true exactly when the classified OS is the one asked for |
| Dom.DetectBrowser | packages/utilities/react-utils/src/dom.ts:87-91 | False outside a browser; in a browser, true exactly when the classified browser is the one asked for |
| Dom.BrowserNamesDistinct | packages/utilities/react-utils/src/dom.ts:23-41 | The returned browser names ("Chrome for iOS", "Edge", "Silk", "Chrome", "Firefox", "AOSP", "IE", "Safari", "WebKit") tell every browser apart |
| Dom.OSNamesDistinct | packages/utilities/react-utils/src/dom.ts:52-62 | The returned OS names ("Android", "iOS", "Windows", "Mac", "Chrome OS", "Firefox OS") tell every OS apart |
| Accordion.MergeClassNames | packages/components/accordion/src/accordion.tsx:33 | The merged slots are those of both maps; the item's own class names win, and `itemClasses` fills in the rest |
| Accordion.MissingClassNamesActAsEmpty | packages/components/accordion/src/accordion.tsx:33 | An item without class names gets exactly `itemClasses`, as with `{}` |
| Accordion.Fragment | packages/components/accordion/src/accordion.tsx:35-45 | The fragment for item `index` starts with the item's entry (its key and merged class names) and has a second entry, a divider, exactly when `!isSplitted && showDivider && index < size - 1` |
| Accordion.ContentFrom | packages/components/accordion/src/accordion.tsx:32-47 | The fragments from `from` on hold 2(size - from) - 1 entries when dividers show and items remain, and size - from otherwise |
| Accordion.Content | packages/components/accordion/src/accordion.tsx:31-48 | The content in closed form: with dividers shown, 2n - 1 entries with item k/2 at each even position k and a divider at each odd one; without, exactly the n item entries in order; no items, no content |
| Accordion.ItemsOf | packages/components/accordion/src/accordion.tsx:32-47 | Dropping the dividers leaves only item entries |
| Accordion.ItemsOfAppend | packages/components/accordion/src/accordion.tsx:32-47 | Dropping dividers distributes over concatenation |
| Accordion.CountDividersAppend | packages/components/accordion/src/accordion.tsx:44 | Divider counts add over concatenation |
| Accordion.EntriesFrom | packages/components/accordion/src/accordion.tsx:32-37 | From index `from` on, there is one entry per item, the k-th for item `from + k` |
| Accordion.ContentFromWithoutDividers | packages/components/accordion/src/accordion.tsx:32-47 | Without dividers the content from `from` on is exactly the items' entries, in collection order |
| Accordion.InterleaveAt | packages/components/accordion/src/accordion.tsx:32-47 | In n interleaved entries (2n - 1 positions) the entries sit at even positions and the dividers at odd ones |
| Accordion.ContentFromInterleaves | packages/components/accordion/src/accordion.tsx:32-47 | With dividers shown, the content from `from` on is the items' entries with a divider between each neighbouring pair |
| Accordion.ContentFromWithDividers | packages/components/accordion/src/accordion.tsx:32-47 | With dividers, items sit at even positions and dividers at odd ones, with 2n-1 entries in all |
| Accordion.ItemAtPosition | packages/components/accordion/src/accordion.tsx:33-37 | Item i appears at its position with its key and its merged class names |
| Accordion.DividerAfterIff | packages/components/accordion/src/accordion.tsx:44 | A divider follows item i exactly when `!isSplitted && showDivider && i < size - 1` |
| Accordion.LastItemEndsContent | packages/components/accordion/src/accordion.tsx:44 | Nothing follows the last item, a divider included |
| Accordion.ItemsOfContentFrom | packages/components/accordion/src/accordion.tsx:32-47 | Dropping the dividers from the content from `from` on leaves the items' entries in order |
| Accordion.DividersOfContentFrom | packages/components/accordion/src/accordion.tsx:44 | The content from `from` on holds `size - from - 1` dividers when dividers show, and none otherwise |
| Accordion.ItemsInCollectionOrder | packages/components/accordion/src/accordion.tsx:32-37 | Every item appears exactly once, in collection order, keyed by `item.key` |
| Accordion.DividerCount | packages/components/accordion/src/accordion.tsx:44 | With dividers enabled, n items give n - 1 dividers; otherwise none |
| Accordion.NoDividersWhenDisabled | packages/components/accordion/src/accordion.tsx:44 | With `isSplitted` or without `showDivider`, no divider appears |
| Accordion.Render | packages/components/accordion/src/accordion.tsx:52 | The content is bare exactly when `disableAnimation` is set |
| Accordion.AnimationOnlyWraps | packages/components/accordion/src/accordion.tsx:52 | The entry sequence is the same with and without animation |
| UseAccordion.FocusTracker.constructor | packages/components/accordion/src/use-accordion.ts:112 | `focusedKey` starts as null |
| UseAccordion.FocusTracker.HandleFocusChanged | packages/components/accordion/src/use-accordion.ts:247-249 | A focus gain records the key, null included; a blur leaves `focusedKey` unchanged |
| UseAccordion.FocusTracker.SetFocusedKey | packages/components/accordion/src/use-accordion.ts:192-194 | The override records the key unconditionally |
| UseAccordion.FocusThenBlur | packages/components/accordion/src/use-accordion.ts:112-249 | From a fresh tracker: null, still null after a blur, the key after a focus and a later blur, and the other key after the override |
| UseAccordion.ResolveComponent | packages/components/accordion/src/use-accordion.ts:114 | `as || "div"` is never falsy: a truthy `as` is kept, otherwise "div" |
| UseAccordion.ShouldFilterDOMProps | packages/components/accordion/src/use-accordion.ts:116 | DOM props are filtered exactly when the component is a tag name |
| UseAccordion.IsSplitted | packages/components/accordion/src/use-accordion.ts:257 | True exactly when `variant` is "splitted" |
| UseAccordion.DefaultSelectedKeys | packages/components/accordion/src/use-accordion.ts:184 | A supplied non-null value wins; null and undefined fall back to `defaultExpandedKeys` |
| UseAccordion.Resolve | packages/components/accordion/src/use-accordion.ts:94-257 | For every props value and every option: an omitted option takes its default ("single", "toggle", `showDivider` true, `dividerProps` empty, every other flag false) and a supplied one is kept; the component is `as` when truthy and "div" otherwise, DOM props are filtered exactly for a tag, `isSplitted` is `variant === "splitted"`, and the default selection follows the `??` rule |
| UseAccordion.OmittedPropsDefaults | packages/components/accordion/src/use-accordion.ts:94-114 | The worked example with every prop omitted: "div", DOM-prop filtering, single selection, toggle behaviour, dividers shown, every flag false, empty divider props |
| UseAccordion.SuppliedPropsKept | packages/components/accordion/src/use-accordion.ts:94-114 | Each supplied option (all ten, `dividerProps` included, and a truthy `as`) wins over its default, whatever the other props are |
| UseAccordion.Normalized | packages/components/accordion/src/use-accordion.ts:148-161 | An element whose children are not a string gets `hasChildItems: false`; every other child is unchanged |
| UseAccordion.NormalizeChildren | packages/components/accordion/src/use-accordion.ts:130-165 | The pushed sequence has the children's length and order, each child normalised |
| UseAccordion.NormalizedMarksIff | packages/components/accordion/src/use-accordion.ts:148-156 | Normalising keeps the kind and identity of a child and sets `hasChildItems: false` exactly on the elements needing it (or already having it) |

## Left out

- The accordion's selection and expansion behaviour is not modelled. It lives in `useTreeState` and `useReactAriaAccordion`, from `@react-stately/tree` and `@react-aria/accordion`, and those packages are not part of this model. `Selection` and the `selectionMode`/`selectionBehavior` settings are only passed through.
- React machinery is not modelled: `useMemo`/`useCallback` dependency lists, `useState` scheduling, `React.cloneElement` internals (object identity of clones), `mergeProps` and `filterDOMProps`. Elements are a datatype with an identity, a "children is a string" flag and the `hasChildItems` prop.
- `UseAccordion.NormalizeChildren`: `React.Children.map` flattens nested child arrays and hands empty children (`undefined`, `null`, booleans) to the callback as `null`, which the loop then pushes. The model takes the already-flat child list, with each such child as a `NonElement`.
- The `values` memo, `getBaseProps`, the theme `classNames` from `accordion({variant, className})`, `dividerProps` beyond its default, and `motionProps` are not modelled. They only forward values to rendering or foreign code.
- `null` passed for a boolean option is out of the model. The options are modelled as omitted or supplied. Destructuring defaults apply only to `undefined`, which is what `None` stands for.
- `canUseDOM`, `isBrowser` and `detectTouch` read `window`. `isBrowser` becomes a parameter of `DetectOS`/`DetectBrowser`, and the navigator is passed in.
- The React ref helpers `createDOMRef`, `createFocusableRef`, `useDOMRef`, `useFocusableRef` and `useSyncRef` are not modelled. They are DOM and effect plumbing.
- Clsx.NumberToString: numbers are integers rendered in plain decimal. JavaScript's floating-point numbers, `NaN` and their string conversion are not modelled; 0 stays the falsy number.
- Object key enumeration order: `for...in` order (integer-like keys first) is not modelled. An object is its entry list in enumeration order, and inherited enumerable keys are not modelled.
- Cyclic values are not modelled: `Clsx.Val` is an inductive datatype. In JavaScript, `toVal` on an array or object that contains itself recurses without end and throws a `RangeError`.
- Regular expressions are not modelled in general. Only the patterns used are: substring, ASCII case-insensitive substring, and the anchored Firefox version suffix.
- The content map runs over `[...state.collection]` while the divider test reads `state.collection.size`. The model takes both to be the same item sequence `items`, so `Accordion.DividerAfterIff` and `Accordion.LastItemEndsContent` read "size" as `|items|`. The tree-state collection that provides both is not part of this model.
- Collection keys are strings. React's numeric keys are not modelled.
- `UseAccordion.ResolveComponent`: `as` is omitted or a tag or component. An explicit `as={null}` is not modelled; like every other falsy `as`, it would also give "div".
- `Divider`, `LayoutGroup`, animation and `AccordionItem` rendering have no meaning here beyond their place in the render plan. The `onFocusChange` wiring and the spread of `item.props`/`values` into each item are not modelled.
- packages/core/theme/src/utils/tv.ts is not part of this model. It is a configuration wrapper over `tailwind-variants`.
- packages/components/menu/src/base/menu-section-base.tsx is not part of this model. It holds only a type declaration and a cast.
