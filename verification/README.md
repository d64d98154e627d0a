# WatiN element matching and event simulation, modelled in Dafny

This project models the part of WatiN that matches elements and simulates
events. WatiN drives web browsers from .NET. The model covers four pieces of
that layer, each written as pure functions over strings and small records:

- **Attribute comparers.** The whole-string, case-insensitive comparer
  (`StringEqualsAndCaseInsensitiveComparer`). It is pinned down by its unit
  tests and folds case without a culture. Also `TypeComparer`, which accepts
  an element only when its runtime class is exactly the requested one.
- **Attribute lookup routing.** `ElementAttributeBag.GetValue` sends `style`
  to the element's `cssText` and `style.<property>` to the style object. Any
  other name goes to `getAttribute`. DBNull and null come back as null.
  `HTMLDialog.GetValue` accepts only `href` and `title`. The bag's lazily
  built element wrappers are modelled too.
- **Synthetic DOM event scripts.** `JSEventCreator` writes the JavaScript
  that creates an event and initialises it positionally. The mouse shape
  follows `initMouseEvent` (section 1.6.2 of W3C DOM Level 2 Events); the
  keyboard shape follows Gecko's `initKeyEvent`. The script may end with a
  dispatch tail. Each exact command the unit tests expect is proved. The
  model also gives a decoder that reads an init command back and proves the
  round trip.
- **Element presentation and guards.** The display-name fallback chains of
  `Element.ToString` and `Form.ToString` and the null-or-empty helpers. The
  disabled-element guards on user actions and the helper event names. The
  `Highlight` save/restore machine over one background-colour slot, with
  `Flash` built from it. `Form`'s lazily cached tag table.

Modelling conventions:

- A C# `null` is `Option.None` and a thrown exception is `Result.Failure`.
- A read from a native object that may throw is `Fallible`: it either
  `Throws` or `Returns` a value.
- The native element, the window tree and the element-type factory are
  oracles: function-valued fields or parameters.
- A lazily initialised field is a `Caching.Lazy` cell. Reading it returns the
  value and the new cell.

Files, one module each:

| file | module |
|---|---|
| `wrappers.dfy` | `Option`, `Result`, `Fallible` |
| `utility.dfy` | null-or-empty helpers, the invariant case fold, first-non-empty fallback |
| `caching.dfy` | lazy cells |
| `comparers.dfy` | both comparers and the element class hierarchy |
| `native.dfy` | raw values and the native element oracle |
| `attribute_bag.dfy` | `ElementAttributeBag` |
| `html_dialog.dfy` | `HTMLDialog` |
| `element.dfy` | `Element` (the 0.6.3 version) |
| `form.dfy` | `Form` |
| `js_events.dfy` | `JSEventCreator` and its decoder |

## Model

| member | source | states |
|---|---|---|
| Utility.IsNullOrEmpty | tags/0.6.3.3007/src/Core/Element.cs:306-309 | a string is null-or-empty when it is null or has length zero |
| Utility.IsNotNullOrEmpty | trunk/src/Core/Form.cs:66-75 | the test the form's fallback chain applies: neither null nor of length zero |
| Utility.NullOrEmptyCases | tags/0.8.0.4000/src/UnitTests/Utils.cs:48-64 | null and "" are null-or-empty and "test" is not; `IsNotNullOrEmpty` gives the opposite answer on each |
| Utility.NotNullOrEmptyIsComplement | tags/0.8.0.4000/src/UnitTests/Utils.cs:57-64 | `IsNotNullOrEmpty` is the exact complement of `IsNullOrEmpty` on every input, null included |
| Utility.FoldChar | src/UnitTests/ComparerTests/StringEqualsAndCaseInsensitiveComparerTests.cs:73-94 | the culture-free fold moves an upper-case letter up by 32 and leaves every other character alone; its result is never upper case |
| Utility.ToLowerInvariant | src/Core/ElementAttributeBag.cs:115 | the invariant lower-casing keeps the length and folds each character independently, so no locale takes part in the lower-casing (the prefix test that follows it is covered under AttributeBag.Route) |
| Utility.ToLowerInvariantIdempotent | src/Core/ElementAttributeBag.cs:115 | lower-casing an already lower-cased string changes nothing |
| Utility.EqualsIgnoreCase | src/Core/ElementAttributeBag.cs:108 | two names are equal ignoring case exactly when their invariant lower-case forms are equal |
| Utility.EqualsIgnoreCaseIsEquivalence | trunk/src/Core/HTMLDialog.cs:124-128 | ignore-case equality is reflexive, symmetric and transitive |
| Utility.FirstNotNullOrEmpty | trunk/src/Core/Form.cs:64-76 | when every candidate is null or empty the fallback is returned; otherwise the first candidate that is not null-or-empty is returned |
| Caching.Force | src/Core/ElementAttributeBag.cs:71-82 | a built cell returns its stored value unchanged; an unbuilt cell returns the freshly built value; afterwards the cell holds what was returned |
| Caching.ForceIsStable | src/Core/ElementAttributeBag.cs:71-82 | a second read ignores its builder and returns the first read's value |
| Caching.ReadMany | src/Core/ElementAttributeBag.cs:88-99 | any number of reads give as many results, and the cell is built after the first |
| Caching.ReadManyAgree | src/Core/ElementAttributeBag.cs:88-99 | every read in a sequence returns the value the first read produced (induction over the reads) |
| Comparers.NewCaseInsensitiveComparer | src/UnitTests/ComparerTests/StringEqualsAndCaseInsensitiveComparerTests.cs:47-51 | construction fails with an argument-null error exactly when the operand is null; otherwise `ToString` gives back the operand unchanged (lines 64-70) |
| Comparers.Compare | src/UnitTests/ComparerTests/StringEqualsAndCaseInsensitiveComparerTests.cs:33-62 | a value matches iff it is not null and equals the operand ignoring case over the whole string; a match has the operand's length |
| Comparers.OperandMatchesInAnyCase | src/UnitTests/ComparerTests/StringEqualsAndCaseInsensitiveComparerTests.cs:37-38 | the operand matches itself and every string that differs from it only in case |
| Comparers.WholeStringOnly | src/UnitTests/ComparerTests/StringEqualsAndCaseInsensitiveComparerTests.cs:40-41 | the operand plus any non-empty suffix does not match, and neither does any proper prefix of it |
| Comparers.CompareIsSymmetric | src/UnitTests/ComparerTests/StringEqualsAndCaseInsensitiveComparerTests.cs:37-38 | a comparer on a matches b exactly when a comparer on b matches a |
| Comparers.CaseInsensitiveComparerCases | src/UnitTests/ComparerTests/StringEqualsAndCaseInsensitiveComparerTests.cs:33-70 | every assertion of the comparer tests: exact and differently-cased matches, superstring, substring, different, empty and null rejected, a null operand refused, an empty operand matching only "", and `ToString` |
| Comparers.DottedIMatchesWithoutLocale | src/UnitTests/ComparerTests/StringEqualsAndCaseInsensitiveComparerTests.cs:72-94 | "I" matches "i" and does not match the Turkish dotless ı, because the fold takes no culture |
| Comparers.CompareType | src/Core/Comparers/TypeComparer.cs:10-37 | an element matches iff its class and the stored type are each a subclass of the other, i.e. the same class; the stored type is the one given at construction |
| Comparers.TypeMatchIsNotSubtyping | src/Core/Comparers/TypeComparer.cs:33-36 | a Form is an ElementsContainer and a Span is an Element, yet neither matches a comparer for its base class |
| Comparers.TypeComparerAcceptsOneClass | src/Core/Comparers/TypeComparer.cs:34-37 | two elements that both match one type comparer have the same class |
| AttributeBag.Route | src/Core/ElementAttributeBag.cs:106-122 | `style` in any case goes to cssText; otherwise a name whose invariant lower-case form has `style.` as an ordinal prefix goes to the style object under the name minus its first six characters; every other name goes to `getAttribute` unchanged |
| AttributeBag.StylePrefixKeepsPropertyCase | src/Core/ElementAttributeBag.cs:115-118 | for any case of the `style.` prefix, the property name passed on is exactly the rest of the name, in its original case |
| AttributeBag.StyleInAnyCaseReadsCssText | src/Core/ElementAttributeBag.cs:108-111 | `style`, `STYLE` and `sTyLe` read cssText, while `styles` and `id` are plain attributes |
| AttributeBag.Normalize | src/Core/ElementAttributeBag.cs:124-134 | a raw value becomes null exactly when it is DBNull or null; any other value becomes its string form |
| AttributeBag.NewBag | src/Core/ElementAttributeBag.cs:46-49 | a fresh bag has neither element wrapper built |
| AttributeBag.GetValue | src/Core/ElementAttributeBag.cs:106-135 | a null name, or a bag without a native element, fails with a null reference; `style` in any case returns the cssText read, and a throwing read fails; otherwise the routed read's raw value is normalised and a throwing read fails |
| AttributeBag.GetValueNormalizesNulls | src/Core/ElementAttributeBag.cs:124-134 | for a plain attribute, DBNull and null both give null and any other value gives its string form |
| AttributeBag.GetElement | src/Core/ElementAttributeBag.cs:71-82 | the first access builds an ElementsContainer wrapper over the bag's own element and container and caches it; later accesses return the cached wrapper; nothing else in the bag changes |
| AttributeBag.GetElementTyped | src/Core/ElementAttributeBag.cs:88-99 | the first access builds a wrapper over the bag's own element and container, of the class the type factory picks for that element, and caches it; later accesses return the cached wrapper; nothing else changes |
| AttributeBag.SetNative | src/Core/ElementAttributeBag.cs:55-59 | setting the element replaces only the element read from; the container and both cached wrappers stay as they were |
| AttributeBag.ElementIsBuiltOnce | src/Core/ElementAttributeBag.cs:55-82 | after a first access, a second access returns the same wrapper even if the native element was replaced in between |
| AttributeBag.ElementTypedIsBuiltOnce | src/Core/ElementAttributeBag.cs:55-99 | the same for the typed wrapper: a second access, before or after the native element is replaced, returns the first wrapper, whatever the type factory answers on later reads |
| HtmlDialog.IgnoreException | trunk/src/Core/HTMLDialog.cs:122-130 | a read that throws leaves the value null; a read that returns gives its value |
| HtmlDialog.GetValue | trunk/src/Core/HTMLDialog.cs:120-138 | `href` in any case returns the url and `title` in any case returns the title, with read failures swallowed; any other name, null included, fails with an invalid-attribute error naming the attribute (null for a null name) and `HTMLDialog` |
| HtmlDialog.GetValueSwallowsReadFailures | trunk/src/Core/HTMLDialog.cs:122-135 | when both reads throw, `HREF` and `Title` return null, and `src` is still refused |
| HtmlDialog.Close | trunk/src/Core/HTMLDialog.cs:60-68 | the window is force-closed exactly once iff it is visible; the container is disposed last, in every case |
| HtmlDialog.Dispose | trunk/src/Core/HTMLDialog.cs:55-58 | disposing goes through Close whatever the disposing flag: one force-close iff visible, then the container disposed last, and nothing else |
| HtmlDialog.DocumentFromHandle | trunk/src/Core/HTMLDialog.cs:75-108 | a window that is not a Trident dialog frame gives no document; a document, or a COM error carrying the failing result, only comes from the first `Internet Explorer_Server` child, and only when it answers the object request with a non-zero result |
| HtmlDialog.AnsweringServerYieldsDocument | trunk/src/Core/HTMLDialog.cs:81-105 | a dialog frame whose server child answers with a non-zero result yields a document or a COM error, never null |
| Elements.Enabled | tags/0.6.3.3007/src/Core/Element.cs:52-55 | an element is enabled exactly when its `disabled` flag is false |
| Elements.HelperEventName | tags/0.6.3.3007/src/Core/Element.cs:209-247 | KeyDown fires onKeyDown, KeyPress onKeyPress, KeyUp onKeyUp, Blur onBlur, Change onChange, MouseEnter onMouseEnter, MouseDown onmousedown and MouseUp onmouseup |
| Elements.ToString | tags/0.6.3.3007/src/Core/Element.cs:138-145 | the title when it is neither null nor empty, else the text |
| Elements.GetAttributeValue | tags/0.6.3.3007/src/Core/Element.cs:126-136 | a value exactly when the native read returns a string, and then that string; a read failure or a value that is not a string gives null |
| Elements.GetAttributeValueVersusBag | tags/0.6.3.3007/src/Core/Element.cs:126-136 | for a plain attribute, the element and the attribute bag agree on strings, null and DBNull; a non-string value gives null from the element but its string form from the bag; a throwing read gives null from the element but a failure from the bag |
| Elements.HelperEventNamesAreDistinct | tags/0.6.3.3007/src/Core/Element.cs:209-247 | each key and mouse helper fires an `on`-prefixed event name, and no two helpers share one |
| Elements.Perform | tags/0.6.3.3007/src/Core/Element.cs:147-257 | every action fails with ElementDisabled(id) exactly when the element is disabled. Otherwise it dispatches its own event: the given name, the helper's name, onFocus after a native focus, onDblClick, or nothing for the clicks. Every action but ClickNoWait highlights on then off once. ClickNoWait adds its worker's Click pair: on, off, on, off when the worker has not started by the time the join returns, and on, on, off, off otherwise, each Highlight call taken whole. Both clicks make the native click |
| Elements.ClickNoWaitSteps | tags/0.6.3.3007/src/Core/Element.cs:177-190 | the highlights are on, off, on, off when none of the worker's steps ran before the join returned, and on, on, off, off otherwise, with each Highlight call taken whole; no event is dispatched and the native click is made |
| Elements.ClickNoWaitInterleavesClick | tags/0.6.3.3007/src/Core/Element.cs:147-190 | the steps are ClickNoWait's own highlight and thread start, then the worker's Click steps cut where the join returns, with the outer un-highlight at the cut |
| Elements.SetHighlight | tags/0.6.3.3007/src/Core/Element.cs:270-304 | switching on saves the background and paints yellow, and a failed read or write saves nothing; switching off restores the saved colour, or transparent when none was saved, and always clears the saved colour |
| Elements.HighlightPairRestores | tags/0.6.3.3007/src/Core/Element.cs:270-304 | on then off puts back the original background and clears the saved colour |
| Elements.UnmatchedOffPaintsTransparent | tags/0.6.3.3007/src/Core/Element.cs:284-303 | a second off with nothing saved paints transparent |
| Elements.RunHighlightsIsRunSwitches | tags/0.6.3.3007/src/Core/Element.cs:270-304 | running an action's steps has the same effect on the style slot as running just its highlight switches |
| Elements.ActionRestoresBackground | tags/0.6.3.3007/src/Core/Element.cs:147-257 | every action on an enabled element leaves a readable, writable, coloured background as it found it, with nothing saved, except a ClickNoWait whose worker highlights before the join returns: that one loses the original colour (transparent when each Highlight runs whole) |
| Elements.OverlappingPairsLoseBackground | tags/0.6.3.3007/src/Core/Element.cs:270-304 | on, on, off leaves the background yellow, and a final off paints it transparent, because the inner on saved the yellow |
| Elements.OnePairRestores | tags/0.6.3.3007/src/Core/Element.cs:270-304 | one on/off pair puts a coloured background back and leaves nothing saved |
| Elements.ClickNoWaitLosesBackground | tags/0.6.3.3007/src/Core/Element.cs:177-190 | a red background loses its colour after a ClickNoWait whose worker highlights before the join returns (transparent when each Highlight runs whole) |
| Elements.SetHighlightNested | tags/0.6.3.3007/src/Core/Element.cs:270-304 | the corrected highlight: only the outermost on saves and paints, only the off that closes it restores, and the depth counts the open pairs |
| Elements.NestedAgreesOnPairs | tags/0.6.3.3007/src/Core/Element.cs:259-304 | where pairs do not overlap, the corrected highlight gives exactly the state the written one gives |
| Elements.NestedActionRestoresBackground | tags/0.6.3.3007/src/Core/Element.cs:147-304 | with the corrected highlight, every action and every worker schedule restores a coloured background, with nothing saved and nothing left open |
| Elements.Pairs | tags/0.6.3.3007/src/Core/Element.cs:261-267 | n on/off pairs are 2n switches alternating on, off, starting on |
| Elements.Flash | tags/0.6.3.3007/src/Core/Element.cs:259-268 | flashing is five on/off highlight pairs, with no guard, and dispatches no event |
| Elements.HighlightsAppend | tags/0.6.3.3007/src/Core/Element.cs:259-268 | the highlight switches and dispatched events of concatenated steps are the concatenations |
| Elements.HighlightsOfRepeat | tags/0.6.3.3007/src/Core/Element.cs:261-267 | repeating an on/off pair n times gives n pairs of switches and no events |
| Elements.PairsRestoreBackground | tags/0.6.3.3007/src/Core/Element.cs:261-267 | any positive number of on/off pairs restores the background and leaves nothing saved |
| Elements.FlashRestoresBackground | tags/0.6.3.3007/src/Core/Element.cs:259-268 | after flashing, the background is as before and nothing is saved |
| Forms.Name | trunk/src/Core/Form.cs:78-81 | the name is the `name` attribute when it reads as a string, and null otherwise |
| Forms.ToString | trunk/src/Core/Form.cs:64-76 | the first of title, id and name that is neither null nor empty, else the base class's text |
| Forms.ToStringFallbacks | trunk/src/Core/Form.cs:66-75 | each of the four cases separately: title, else id, else name, else the base text |
| Forms.ElementTags | trunk/src/Core/Form.cs:31-44 | the tag list is the single tag `form`, and the cache holds it afterwards |
| Forms.ElementTagsIsStable | trunk/src/Core/Form.cs:33-44 | reading the tag list again from the filled cache gives the same list and the same cache |
| JsEvents.StripOn | src/UnitTests/Native/FireFoxTests/FireEventTests.cs:19-37 | a leading `on` is dropped and the rest kept; a name without it is kept unchanged |
| JsEvents.ArgumentValues | src/UnitTests/Native/FireFoxTests/FireEventTests.cs:44-70 | one value per slot, in slot order: the supplied value verbatim when one is supplied under the slot's name, else the slot's default |
| JsEvents.CreateMouseEventCommand | src/UnitTests/Native/FireFoxTests/FireEventTests.cs:66-70 | the mouse command starts by creating a `MouseEvents` event on the target's owner document |
| JsEvents.CreateKeyboardEventForMozilla | src/UnitTests/Native/FireFoxTests/FireEventTests.cs:108-112 | the keyboard command starts by creating a `KeyboardEvent` on the target's owner document |
| JsEvents.CreateEvent | src/UnitTests/Native/FireFoxTests/FireEventTests.cs:19-23 | fails exactly for a keyboard event type on an engine other than Mozilla; otherwise it is the command of the type's shape, followed by the dispatch tail exactly when a result is asked for |
| JsEvents.DecodeInitCommandRoundTrip | src/UnitTests/Native/FireFoxTests/FireEventTests.cs:70 | decoding an init command gives back its shape, its event type and its argument values, provided the type has no quote and no supplied value has a comma |
| JsEvents.SplitJoin | src/UnitTests/Native/FireFoxTests/FireEventTests.cs:70 | splitting a comma-joined argument list at commas recovers the arguments when none contains a comma |
| JsEvents.CreateStatementsDiffer | src/UnitTests/Native/FireFoxTests/FireEventTests.cs:84 | a command that creates a keyboard event does not also start by creating a mouse event |
| JsEvents.DecodeInitCallRoundTrip | src/UnitTests/Native/FireFoxTests/FireEventTests.cs:70 | the init call reads back its quoted event type and its argument text |
| JsEvents.TypeParameterIsIgnored | src/UnitTests/Native/FireFoxTests/FireEventTests.cs:44-70 | a `type` entry in the parameters changes neither command, because the event type comes from the name argument |
| JsEvents.UnusedParameter | src/UnitTests/Native/FireFoxTests/FireEventTests.cs:44-70 | a parameter that names no slot does not change the argument values |
| JsEvents.KeyboardNeverMouse | src/UnitTests/Native/FireFoxTests/FireEventTests.cs:77-84 | a keyboard event type on Mozilla succeeds with the keyboard construction and never the mouse one |
| JsEvents.DispatchedCommand | src/UnitTests/Native/FireFoxTests/FireEventTests.cs:23 | a successful dispatched command is the init command of its shape followed by the dispatch tail |
| JsEvents.TargetNamesBothCalls | src/UnitTests/Native/FireFoxTests/FireEventTests.cs:16-23 | a dispatched command starts with the target's `.ownerDocument.createEvent` and ends with the tail whose `dispatchEvent` call is on the same target |
| JsEvents.MouseDefaultValues | src/UnitTests/Native/FireFoxTests/FireEventTests.cs:23 | with nothing supplied, the fourteen mouse arguments are `true,true,null,0,0,0,0,0,false,false,false,false,0,null` |
| JsEvents.KeyboardDefaultValues | src/UnitTests/Native/FireFoxTests/FireEventTests.cs:84 | with nothing supplied, the nine keyboard arguments are `true,true,null,false,false,false,false,0,0` |
| JsEvents.MouseNamedValues | src/UnitTests/Native/FireFoxTests/FireEventTests.cs:44-70 | each mouse slot supplied under its own name yields the slot names, in the order bubbles, cancelable, windowObject, detail, screenX, screenY, clientX, clientY, ctrlKey, altKey, shiftKey, metaKey, button, relatedTarget |
| JsEvents.KeyboardNamedValues | src/UnitTests/Native/FireFoxTests/FireEventTests.cs:91-112 | each keyboard slot supplied under its own name yields bubbles, cancelable, windowObject, ctrlKey, altKey, shiftKey, metaKey, keyCode, charCode |
| JsEvents.MouseDownDefaultsCommand | src/UnitTests/Native/FireFoxTests/FireEventTests.cs:12-24 | `onmousedown` with no parameters and dispatch produces exactly the expected command, with `on` stripped |
| JsEvents.ClickDefaultsCommand | src/UnitTests/Native/FireFoxTests/FireEventTests.cs:26-38 | `click`, which has no `on`, produces exactly the expected mouse command with defaults and dispatch |
| JsEvents.MouseNamedCommand | src/UnitTests/Native/FireFoxTests/FireEventTests.cs:40-71 | the mouse command with every slot named produces exactly the expected string, unquoted values and a quoted type, with no dispatch tail |
| JsEvents.KeyDownDefaultsCommand | src/UnitTests/Native/FireFoxTests/FireEventTests.cs:73-85 | `onkeydown` on Mozilla with no parameters and dispatch produces exactly the expected keyboard command |
| JsEvents.KeyNamedCommand | src/UnitTests/Native/FireFoxTests/FireEventTests.cs:87-113 | the keyboard command with every slot named produces exactly the expected string |

`TypeComparer.Compare` and every other member are pure functions, so
repeated calls on the same input agree by construction.

## Left out

- `src/Core/FireFox.cs` is left out. It covers process launch, registry and disk lookup, process enumeration, the socket client port, and attaching through a retry helper. All of these are I/O.
- The browser-driving tests (IE main document, frames, file upload, div collections) are left out. They need a live browser and wall-clock timing.
- The COM and Win32 calls in `HTMLDialog` are oracles of a `WindowTree`: `GetChildWindowHwnd`, `RegisterWindowMessage`, `SendMessageTimeout` and `ObjectFromLresult`. Its failure becomes a COM error result instead of an exception. Window visibility is a parameter of `Close`.
- `HTMLDialog`'s dialog watcher and its constructor are left out: they are threads and I/O.
- Elements.Perform: the timing of `ClickNoWait`'s worker thread is a parameter: how many of its `Click` steps have run when `Join(500)` returns. The worker's own guard is taken to pass, because the outer guard has just checked the same element. An exception inside the worker is not modelled.
- Elements.Perform: each `Highlight` call is one step that the other thread of `ClickNoWait` cannot interleave with. In the source it is several: the colour is read and then stored in `originalcolor` (Element.cs:276), and the off checks `originalcolor` before reading it again and clears it in its `finally` (Element.cs:288-300). Schedules that split a call there end with a yellow or null background rather than transparent; they lose the original colour all the same, but the model does not show them.
- Elements.Perform: the native click, the dispatch and `WaitForComplete` never fail in the model. In the source, a throw from `FireEvent`'s dispatch or wait skips its `Highlight(false)`, which has no `finally`. The element then stays yellow with the colour still saved. The model does not show that path.
- The 250 ms pauses in `Flash` are left out.
- `WaitForComplete`, the native `click`/`focus` calls and logging are left out. They appear only as steps in a trace, or not at all.
- Elements.Perform: `Click` highlights off in a `finally` even when `WaitForComplete` throws. The model has no failing wait, so that path is not modelled.
- AttributeBag.Route: the source tests the lower-cased name with `StartsWith("style.")`, which compares in the current culture, and then cuts with an ordinal `Substring(6)`. The model uses an ordinal prefix test. The two differ on names with characters the culture ignores or combines: a soft hyphen inside `style` passes the source's test but not the model's, and a combining mark right after the dot fails the source's test but passes the model's.
- `StringComparer.AreEqual` is not part of this model. Its ignore-case call is modelled as equality of invariant lower-case forms.
- `UtilityClass.CompareClassNames` is not part of this model. It is modelled as exact class-name equality through the oracle.
- `Style.GetAttributeValue` is not part of this model. It is the native element's `styleProperty` oracle.
- `Element.GetTypedElement` is not part of this model. It is a type-factory parameter of `GetElementTyped`.
- Utility.FoldChar: the fold covers ASCII and Latin-1 upper-case letters only, not the whole of Unicode. No culture enters it, which is the property the comparer tests check.
- The `StringEqualsAndCaseInsensitiveComparer` and `JSEventCreator` sources are not part of this model. Their behaviour is taken from their unit tests.
- JsEvents.CreateEvent: the keyboard event types are taken to be `keydown`, `keypress` and `keyup`, after a lower-case `on` is stripped. Every other type gets the mouse shape.
- JsEvents.CreateEvent: the tests do not fix what happens with a keyboard type on a non-Mozilla engine. The model returns an error there.
- JsEvents.ArgumentValues: a `NameValueCollection` is a map with exact-key lookup. Case-insensitive keys and multiple values per key are not modelled.
- `Form`'s base-class `ToString` is a parameter of the form.
- `Form.Name` reads through the 0.6.3 `Element.GetAttributeValue`, so a value that is not a string gives null.
- Forms.ElementTags: the property hands out the shared static list itself, so a caller can change it. The model assumes the cached list is never changed, so every read returns the single `form` tag.
- `Form.Submit` is left out: it is a native submit followed by `WaitForComplete`.
- `Span`, `ImageCollection`, `BaseElementCollection` and `ElementsContainer` are left out. They are thin typed wrappers, or their sources are not part of this model.
- The `BrowserType` enum is left out: it has no behaviour.
- The element finder, the retry and timeout helper and the remote command channel are not part of this model.

## Findings

| source | as written | input that shows it | evidently intended | confidence | as-written member | corrected member |
|---|---|---|---|---|---|---|
| tags/0.6.3.3007/src/Core/Element.cs:177-190 | `ClickNoWait` calls `Highlight(true)` and then runs `Click` on a worker thread. That `Click` calls `Highlight(true)` again, and the second call stores the yellow the first one painted in the shared `originalcolor`. | A readable, writable red background, with the worker reaching its `Highlight(true)` before `Join(500)` returns. The background loses the red: it ends transparent when each `Highlight` call runs whole, and yellow or null when the two threads interleave inside one. While the worker is blocked in the click, for example by a modal dialog, it stays yellow after `ClickNoWait` returns. | Highlighting during a click puts the original background back. | medium, not executed | Elements.ClickNoWaitLosesBackground | Elements.NestedActionRestoresBackground |

The corrected highlight, `Elements.SetHighlightNested`, counts open highlight
pairs: only the outermost on saves the colour, and only the off that closes it
restores the colour. `Elements.NestedAgreesOnPairs` shows it gives the same
state as the written `Highlight` wherever pairs do not overlap, which covers
`Flash` and every action other than `ClickNoWait`. The rest of the model keeps
the written `Highlight`, so that it states what the source does.
