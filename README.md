# admin-bar: a Dafny model of the toolbar's logic

The admin-bar component is a browser toolbar built from custom elements. This
project models its four pieces of logic and proves what they promise:

- **`AdminBarBuilder`** (`builder_types.dfy`, `validation.dfy`, `render.dfy`,
  `admin_bar_builder.dfy`, `dom.dfy`). The builder takes a declarative
  description: a list of `button`/`text` entries, where buttons may nest
  popover children, and optional environment, greeting and logout blocks.
  - `_formatAdminBarData` keeps the top-level entries whose whole subtree
    passes `childIsValid`, in their original order, and stores nothing at all
    when none is valid.
  - `getAdminBar` builds an `<admin-bar>` element. It holds one child per kept
    entry, then a spacer, then an optional environment text, and it carries
    the greeting and logout attributes on the root.
  - The element-making operations are
    - `_addChildButton`, which applies at most one action, in the priority
      `onclick`, then a non-empty popover, then `buttonHref`;
    - `_addChildText`, which sets at most one content attribute, in the
      priority `dlContent`, then `tableContent`, then `textContent`;
    - `_addStylesToElement`, which splits custom properties (`--` keys) from
      ordinary ones;
    - `_validateSvg`, which rejects an icon tree with a `script` or
      `parsererror` descendant.

  Elements are immutable records: a tag, an attribute map, a class string,
  two style maps, an optional click handler and children. The `Render` module
  states, as functions, the element each builder method must produce. The
  `AdminBarBuilder` class holds `container`, `formattedData` and `options` as
  fields. Its methods build elements step by step, as the source does, and
  each method is proved to return exactly the `Render` element.
- **`AdminBarSurface` progress indicator** (`surface.dfy`). `willUpdate` maps
  `progressValue` to a state (`reset`, `progress`, `success` or `error`) and
  to a width. Assigning `progressValue` records a change only when the value
  differs, except that the initial value counts as a change from `undefined`,
  so the first update draws `progress` at width 0. `_onProgressAnimationEnd`
  sends a finished state back to `reset`.
- **`makeDraggable`** (`draggable.dfy`). The `start`, `move` and `end`
  handlers act on the shared `DraggableState` and on the handle element. The
  handlers are also modelled as steps on a record, so that sequences of events
  can be stated.
- **`defineAdminBarElements`** (`registry.dfy`). It is a conditional insert of
  each listed element, then `admin-bar`, into the custom element registry. The
  registry is modelled as a `map<string, ElemKind>` field.
- `sample_data.dfy` replays an abridged copy of the description used by the package's tests
  through formatting and icon validation.

Quirks of the code that the model keeps:
- A `checkbox` entry is never valid in `childIsValid`, so it is always
  dropped.
- A button with `popover: []` is valid, because `popover?.length !== undefined`
  holds for an empty array. Such a button, with no `onclick` and no truthy
  `buttonHref`, renders with no action at all.
- `textContent: ''` makes a text valid, but then sets no attribute.
- Formatting copies only `enable` and `label` of the environment block.
  `getAdminBar` then reads `environment.badge`, which is therefore always
  absent, and it never renders the label. `Render.EnvironmentTextHasNoBadge`
  states the consequence: the environment text never carries `badge-content`.

## Model

| member | source | states |
|---|---|---|
| Validation.ValidEntries | src/utils/AdminBarBuilder.ts:315-320 | The kept list is no longer than the input, and every kept entry is an input entry that passes `childIsValid`. |
| Validation.ValidEntriesAppend | src/utils/AdminBarBuilder.ts:315-320 | Filtering distributes over concatenation, so relative order is kept and no entry moves across a boundary. |
| Validation.ValidEntriesComplete | src/utils/AdminBarBuilder.ts:315-320 | Every valid entry of the input is kept. |
| Validation.ValidEntriesEmpty | src/utils/AdminBarBuilder.ts:315-325 | The kept list is empty iff no entry of the input is valid. |
| Validation.ValidEntriesOfValid | src/utils/AdminBarBuilder.ts:315-320 | A list of valid entries is kept whole. |
| Validation.ChildIsValid | src/utils/AdminBarBuilder.ts:295-313 | Another type is never valid. A valid button with a popover has every popover child valid, so validity covers the whole subtree. A button with `popover: []` is valid, and so is a text whose `textContent` is the empty string. |
| Validation.FormatData | src/utils/AdminBarBuilder.ts:289-358 | Stored data holds a non-empty list of entries, every one valid, and its environment block never has a badge. |
| Validation.FormatDataShape | src/utils/AdminBarBuilder.ts:289-358 | Data is stored iff some top-level entry is valid, whatever the optional blocks say. Stored data holds exactly the valid entries, and it is non-empty and all valid. The environment block has no badge. Each optional block is present iff it was given enabled. |
| Validation.FormatDataIdempotent | src/utils/AdminBarBuilder.ts:289-358 | Formatting already-formatted data changes nothing. |
| Render.WithStyles | src/utils/AdminBarBuilder.ts:269-281 | Styling touches only the two style maps of the element. |
| Render.StyleSplitIsPartition | src/utils/AdminBarBuilder.ts:269-281 | The custom and ordinary groups are disjoint and together cover every style key. A key is custom iff it starts with `--`. Values are kept. |
| Render.StyleSplitAdd | src/utils/AdminBarBuilder.ts:272-279 | One more style entry lands in exactly the group its key belongs to, and the other group is unchanged. |
| Render.SetOptionalAttribute | src/utils/AdminBarBuilder.ts:243-248 | Setting an attribute only when the value is truthy touches only the attribute map. |
| Render.SetFlag | src/utils/AdminBarBuilder.ts:249-251 | The `multi-line` flag touches only the attribute map. |
| Render.SetOptionalStyle | src/utils/AdminBarBuilder.ts:252-254 | The optional style touches only the style maps. |
| Render.SetContent | src/utils/AdminBarBuilder.ts:255-264 | The content choice touches only the attribute map. The attributes it sets are stated by `TextElementAttributes`. |
| Render.TextElement | src/utils/AdminBarBuilder.ts:225-267 | A text element is an `admin-bar-text` with no children and no click handler. |
| Render.TextElementAttributes | src/utils/AdminBarBuilder.ts:240-264 | The only attributes set are `badge-content`, `badge-position` and `multi-line`, each exactly when truthy (or `true`) and with its value, plus at most one of `dl-content`, `table-content` and `text-content`. That one is chosen by truthiness in that priority; a string passes through and a structured value is serialised. |
| Render.SetAction | src/utils/AdminBarBuilder.ts:183-198 | The action step adds a popover slot after the existing children iff the action is the popover, sets the click handler iff it is `onclick`, and sets `button-href` iff it is the link. Nothing else changes. |
| Render.ActionOf | src/utils/AdminBarBuilder.ts:183-198 | The action is the click handler iff `onclick` is given; the popover only for a non-empty popover; the link only for a truthy href. A valid button gets no action only when its popover is `[]` or its href is the empty string. |
| Render.IconChildren | src/utils/AdminBarBuilder.ts:169-179 | At most one child. There is one iff the icon is truthy and has no forbidden descendant, and it is a `span` whose only attribute is `slot="before-label"` and whose only child is the parsed icon. |
| Render.PopoverSlot | src/utils/AdminBarBuilder.ts:185-196 | The slot is a `span` whose only attribute is `slot="popover"`, holding at most one element per popover child. |
| Render.ButtonElement | src/utils/AdminBarBuilder.ts:151-214 | A button element is an `admin-bar-button`. |
| Render.ButtonLabelAndIcon | src/utils/AdminBarBuilder.ts:162-181 | The button keeps its class string. `label-text` is set iff the label is truthy, with its value. A `before-label` slot holding the parsed icon comes first iff the icon is truthy and has no forbidden descendant. |
| Render.ButtonAppliesOneAction | src/utils/AdminBarBuilder.ts:183-198 | A click handler is present iff `onclick` is given. A popover slot is present iff there is no `onclick` and the popover is non-empty. `button-href` is present iff neither applies and the href is truthy, and it then carries the href. |
| Render.PopoverRenderedWhole | src/utils/AdminBarBuilder.ts:183-194 | For a valid button whose action is the popover, the last child is the `popover` slot. It holds one element per popover child, in order, each the element of that child. |
| Render.EntryElementsSnoc | src/utils/AdminBarBuilder.ts:79-85 | Appending one more entry appends exactly that entry's elements. |
| Render.EntryElementsOfValid | src/utils/AdminBarBuilder.ts:79-85 | Valid entries give exactly one element each, in order, and none of them has another type. |
| Render.EnvironmentEntry | src/utils/AdminBarBuilder.ts:96-102 | The environment block is rendered through a text entry. |
| Render.RootShell | src/utils/AdminBarBuilder.ts:57-76 | The root starts as an `admin-bar` with no children. Its only attribute is `id`, which carries `adminBarId ?? 'admin-bar'`. |
| Render.SetEnvironment | src/utils/AdminBarBuilder.ts:93-104 | The environment step appends the environment text last, iff there is one. Afterwards `show-environment` is present iff there is one or it was already there. Every other attribute is left alone. |
| Render.EnvironmentText | src/utils/AdminBarBuilder.ts:93-104 | There is an environment text iff there is an environment block. |
| Render.SetGreeting | src/utils/AdminBarBuilder.ts:107-118 | The greeting step touches only attributes. Afterwards `show-greeting` is present iff the block is present or it was already there. |
| Render.SetLogout | src/utils/AdminBarBuilder.ts:121-129 | The logout step touches only attributes. Afterwards `show-logout` is present iff the block is present or it was already there. |
| Render.GreetingAttributes | src/utils/AdminBarBuilder.ts:107-118 | `show-greeting` is set iff the block is present. `avatar-alt`, `avatar-src` and `greeting-text` are each set iff the block is present and the field truthy, with the field's value. |
| Render.GreetingKeeps | src/utils/AdminBarBuilder.ts:107-118 | The greeting block leaves every attribute other than its own four unchanged. |
| Render.LogoutAttributes | src/utils/AdminBarBuilder.ts:121-129 | `show-logout` is set iff the block is present. `logout-href` and `logout-label` are each set iff the block is present and the field truthy, with the field's value. |
| Render.LogoutKeeps | src/utils/AdminBarBuilder.ts:121-129 | The logout block leaves every attribute other than its own three unchanged. |
| Render.RootAttributes | src/utils/AdminBarBuilder.ts:60-129 | Whatever the entry elements, the root carries its `id`. It carries `show-environment`, `show-greeting` and `show-logout` exactly when the corresponding block is present. |
| Render.RootBeforeBlocks | src/utils/AdminBarBuilder.ts:57-104 | Before the greeting and logout steps, the root carries none of their attributes. |
| Render.RootGreetingAttributes | src/utils/AdminBarBuilder.ts:107-129 | Whatever the entry elements, the root carries `avatar-alt`, `avatar-src` and `greeting-text` each iff the greeting block is present and the field truthy, with the field's value; the logout step does not disturb them. |
| Render.RootLogoutAttributes | src/utils/AdminBarBuilder.ts:107-129 | Whatever the entry elements, the root carries `logout-href` and `logout-label` each iff the logout block is present and the field truthy, with the field's value. |
| Render.AdminBarElement | src/utils/AdminBarBuilder.ts:52-133 | The built element is an `admin-bar`. Its children are the entries' elements, then the spacer, then one more child iff there is an environment block. |
| Render.AdminBarAttributes | src/utils/AdminBarBuilder.ts:52-133 | For the element built from formatted data: the `id`; each `show-*` flag iff its block is present; each greeting and logout attribute iff its block is present and the field truthy, with the field's value. |
| Render.AdminBarChildren | src/utils/AdminBarBuilder.ts:78-104 | For valid entries, the root's children are one element per entry in order, then exactly one spacer, then the environment text only when the block is present. |
| Render.EnvironmentTextHasNoBadge | src/utils/AdminBarBuilder.ts:93-104 | After formatting, the environment text is the last child and carries no `badge-content`, whatever badge the caller passed. `show-environment` is set. |
| Builder.AdminBarBuilder.constructor | src/utils/AdminBarBuilder.ts:13-40 | The constructor stores the container and options, and formats the data when given. With `autoRender`, and when something renders, the container's children become exactly the rendered `<admin-bar>`; otherwise they are unchanged. |
| Builder.AdminBarBuilder.AddAdminBar | src/utils/AdminBarBuilder.ts:42-47 | The container's children are replaced by the given element, or else by the built one. With neither, they stay unchanged. |
| Builder.AdminBarBuilder.GetAdminBar | src/utils/AdminBarBuilder.ts:52-133 | The result is null iff there is no formatted data, and otherwise exactly `AdminBarElement` of the data and options. Its children are one element per stored entry, in order, then the spacer, then the environment text exactly when there is an environment block. |
| Builder.AdminBarBuilder.CreateRoot | src/utils/AdminBarBuilder.ts:57-76 | The id, class and style steps produce `RootShell`. |
| Builder.AdminBarBuilder.AppendEntries | src/utils/AdminBarBuilder.ts:78-85 | The loop appends `EntryElements` of the entries after the existing children. |
| Builder.AdminBarBuilder.AppendEntry | src/utils/AdminBarBuilder.ts:80-84 | One iteration appends the entry's element for a button or a text, and nothing for any other type. |
| Builder.AdminBarBuilder.AddBlocks | src/utils/AdminBarBuilder.ts:92-129 | The environment, greeting and logout steps produce `SetEnvironment`, then `SetGreeting`, then `SetLogout`. |
| Builder.AdminBarBuilder.SetOptions | src/utils/AdminBarBuilder.ts:135-137 | The options are replaced. |
| Builder.AdminBarBuilder.SetContainer | src/utils/AdminBarBuilder.ts:139-141 | The container is replaced. |
| Builder.AdminBarBuilder.SetData | src/utils/AdminBarBuilder.ts:143-145 | The previous data is always discarded, and the stored data becomes `FormatData` of the new data. |
| Builder.AdminBarBuilder.AddChildButton | src/utils/AdminBarBuilder.ts:151-214 | The step-by-step build returns exactly `ButtonElement`. |
| Builder.AdminBarBuilder.AddPopoverSlot | src/utils/AdminBarBuilder.ts:183-196 | The popover loop returns exactly `PopoverSlot`. |
| Builder.AdminBarBuilder.AddChildText | src/utils/AdminBarBuilder.ts:225-267 | The step-by-step build returns exactly `TextElement`. |
| Builder.AdminBarBuilder.AddStylesToElement | src/utils/AdminBarBuilder.ts:269-281 | The key-by-key loop gives exactly `WithStyles`: the existing style plus the custom and ordinary groups. |
| Builder.AdminBarBuilder.FormatAdminBarData | src/utils/AdminBarBuilder.ts:289-358 | The stored data becomes `FormatData` of the input, and the class invariant holds. |
| Builder.AdminBarBuilder.ValidateSvg | src/utils/AdminBarBuilder.ts:366-375 | The result is true iff no element strictly below the root is a `parsererror` or a `script`. |
| Dom.HasForbiddenDescendant | src/utils/AdminBarBuilder.ts:366-375 | Only elements below the root are examined: an element without children never has a forbidden descendant, whatever its own tag. |
| Dom.DescendantTags | src/utils/AdminBarBuilder.ts:368 | The flat tag list names at least every child, each child's tag included. |
| Dom.ListedTagIsDescendant | src/utils/AdminBarBuilder.ts:366-375 | A forbidden tag in the flat tag list comes from a forbidden descendant. |
| Dom.DescendantTagIsListed | src/utils/AdminBarBuilder.ts:366-375 | A forbidden descendant appears in the flat tag list. |
| Dom.Container.ReplaceChildren | src/utils/AdminBarBuilder.ts:45 | The container's children become exactly the one node. |
| Surface.ProgressFor | src/components/AdminBarSurface.ts:236-248 | The state is `error` iff the value is negative, `success` iff it is at least 100, and `progress` iff it lies in [0, 100); it is never `reset`. The width is the value for progress and 100 otherwise, and always lies in [0, 100]. |
| Surface.AfterAnimationEnd | src/components/AdminBarSurface.ts:170-174 | `error` and `success` become `reset`, and `progress` and `reset` are kept. |
| Surface.AnimationEndIdempotent | src/components/AdminBarSurface.ts:170-174 | A second animation end changes nothing more. |
| Surface.AdminBarSurface.constructor | src/components/AdminBarSurface.ts:145-163 | A new surface has value 0, state `reset` and width 0, and `progressValue` counts as changed for the first update. |
| Surface.AdminBarSurface.WillUpdate | src/components/AdminBarSurface.ts:234-249 | When `progressValue` changed, the state and width become `ProgressFor` of it; otherwise both are unchanged. The width stays in [0, 100]. |
| Surface.AdminBarSurface.SetProgressValue | src/components/AdminBarSurface.ts:145-146 | Assigning the property stores the value. It is recorded as changed iff it differs from the current value or a change was already recorded. |
| Surface.AdminBarSurface.PerformUpdate | src/components/AdminBarSurface.ts:234-249 | An update cycle recomputes the view from the value iff a change was recorded, otherwise keeps it, and clears the record. |
| Surface.FirstUpdate | src/components/AdminBarSurface.ts:145-146 | The first update of a fresh surface draws `progress` at width 0. |
| Surface.AdminBarSurface.OnProgressAnimationEnd | src/components/AdminBarSurface.ts:170-174 | The state becomes `AfterAnimationEnd` of the old state. |
| Draggable.DisplaceOffsetFrom | src/utils/draggable.ts:13-35 | Displacing a point by the offset taken at that point gives the original position back. |
| Draggable.StartStep | src/utils/draggable.ts:14-22 | A non-left button changes nothing. A left press records `pos - pointer` and keeps `pos`. |
| Draggable.MoveStep | src/utils/draggable.ts:31-35 | Without a drag, nothing changes. While dragging, `pos` becomes pointer plus offset. The offset never changes. |
| Draggable.EndStep | src/utils/draggable.ts:24-29 | The offset is cleared and `pos` is kept. |
| Draggable.MoveBackRestoresPosition | src/utils/draggable.ts:13-35 | After a left press, any moves, and a move back to the press coordinates, `pos` is the pre-drag position. |
| Draggable.MovesKeepOffset | src/utils/draggable.ts:31-35 | No sequence of moves changes the recorded offset. |
| Draggable.MovesAfterEndAreIgnored | src/utils/draggable.ts:24-35 | After `end`, any sequence of moves leaves the state unchanged. |
| Draggable.DraggableState.constructor | src/utils/draggable.ts:6-11 | A new state is not dragging and holds the given position. |
| Draggable.Start | src/utils/draggable.ts:14-22 | The state becomes `StartStep`. A left press adds the `dragging` class and sets both user-select properties to `none`; any other button leaves the handle unchanged. |
| Draggable.End | src/utils/draggable.ts:24-29 | The state becomes `EndStep`. The `dragging` class is removed and both user-select properties are cleared. |
| Draggable.Move | src/utils/draggable.ts:31-35 | The state becomes `MoveStep`. |
| Registry.TagName | src/utils/defineAdminBarElements.ts:17 | A listed element's name is never `admin-bar`. |
| Registry.TagNameInjective | src/utils/defineAdminBarElements.ts:16-17 | Distinct listed elements get distinct names. |
| Registry.DefineIfAbsent | src/utils/defineAdminBarElements.ts:18-29 | The name is defined afterwards. A taken name keeps the registry as it was, and a free one is added with the given class. |
| Registry.DefineList | src/utils/defineAdminBarElements.ts:16-31 | The loop never removes a name. |
| Registry.Registered | src/utils/defineAdminBarElements.ts:12-39 | After a call `admin-bar` is defined and no name was removed. |
| Registry.DefineListCovers | src/utils/defineAdminBarElements.ts:16-31 | After the loop, every listed name is defined. |
| Registry.DefineListKeeps | src/utils/defineAdminBarElements.ts:16-31 | A name defined before the loop keeps its class. |
| Registry.DefineListAddsListed | src/utils/defineAdminBarElements.ts:16-31 | A name the loop adds is a listed name, with the class the `switch` picks for it. |
| Registry.RegisteredCharacterised | src/utils/defineAdminBarElements.ts:12-39 | After a call, `admin-bar` and every listed name are defined, and existing names keep their class. A new `admin-bar` gets `AdminBar`, and a new listed name gets the `switch`'s class: button, checkbox and text map to their own classes. Nothing else is added. |
| Registry.NewListedNameClass | src/utils/defineAdminBarElements.ts:16-29 | A listed name that was free before the call is defined afterwards with the class the `switch` picks for it. |
| Registry.RegisteredIdempotent | src/utils/defineAdminBarElements.ts:12-39 | Calling twice with the same list gives the same registry as calling once. |
| Registry.CustomElementRegistry.Get | src/utils/defineAdminBarElements.ts:18 | `get` returns the defined class, or nothing when the name is free. |
| Registry.CustomElementRegistry.Define | src/utils/defineAdminBarElements.ts:21 | `define` adds exactly the new name with its class. |
| Registry.DefineAdminBarElements | src/utils/defineAdminBarElements.ts:12-39 | The registry becomes `Registered` of the old registry and the list. |
| SampleData.SampleValidity | vitest/builder-data.ts:4-50 | In an abridged copy of the test description, the dashboard button, the popover button and the text are valid. The checkbox and the button with an empty popover text are not. |
| SampleData.SampleFormatted | vitest/builder-data.ts:4-69 | Formatting the test description keeps the dashboard button, the popover button and the text, in that order, and strips the environment badge. |
| SampleData.ScriptIconDropped | vitest/builder-data.ts:13-25 | The icon containing a `script` is rejected, so its button gets no `before-label` slot. The pencil icon is kept. |

## Left out

- DOM work (`document.createElement`, `classList`, `style` objects, `append`) is modelled by immutable element records, and `replaceChildren` by a container object with a children field. `DOMParser` is a foreign call: an icon carries its markup and the tree the parser produced for it.
- `JSON.stringify` is foreign: a structured `dlContent`/`tableContent` value is kept as a `Serialized` attribute value rather than as JSON text.
- Class strings are not split on spaces. The element keeps the whole class string, because token splitting and `classList` rejection of empty tokens are browser behaviour.
- Attribute names are a closed datatype of the names the builder sets, rather than arbitrary strings.
- `null` and `undefined` are one absent value (`None`). An absent `buttons` list behaves like an empty one, as `buttons?.length` makes it.
- Button fields the builder never reads (`buttonAriaLabel`, `badgeContent` on buttons) and checkbox fields are not modelled. A checkbox is an entry of another type.
- The environment `label` is copied by formatting but not modelled past it, because `getAdminBar` never reads it.
- Builder.AdminBarBuilder.Valid: entries are immutable values here. In the code `_formatAdminBarData` stores the caller's own entry objects, so a caller that changes an entry after `setData` or construction (for example by pushing an invalid text into a kept button's `popover`) makes the next `getAdminBar` render an entry that was never validated. That mutation through shared references is not modelled, and the invariant holds only because the model has none.
- Builder.AdminBarBuilder.AddChildButton: a click handler is a value with an identity rather than a callable function, and it is never invoked.
- Event wiring (`addEventListener`, `setPointerCapture`, `animationend`, `touchstart`/`dragstart` prevention) is left out. Handlers are method calls.
- Draggable.Start: `eventToCoordinates` is a caller-supplied function; each event carries the coordinates it returned. `_pos` is never read or written by the handlers and is not modelled.
- Surface.AdminBarSurface.WillUpdate: Lit's changed-properties map is reduced to a flag saying whether `progressValue` changed. Lit schedules its update cycle asynchronously; here `PerformUpdate` is called explicitly, and property assignments before it only record a change. Changes to `_progressState` and `_progressWidth` schedule updates that do not reach this logic.
- Surface.ProgressFor: JavaScript numbers are modelled as unbounded integers. Fractional values and `NaN`, which matches no branch, are not represented. The same holds for pointer coordinates in `Draggable`.
- Registry.CustomElementRegistry.Define: the browser throws on a name that is already taken. The model makes that a precondition, which the code meets because it always calls `get` first.
- Lit templates, CSS, the other custom elements (`AdminBar`, `AdminBarButton`, `AdminBarText`, `AdminBarCheckbox`, `AdminBarBadge`) and the rest of `AdminBarSurface` are presentation and not part of this model.
