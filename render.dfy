/**
 * What the builder produces, stated as functions of the formatted data: the
 * style split, the `<admin-bar-text>` and `<admin-bar-button>` elements made
 * for each entry, and the `<admin-bar>` root with its children. The builder's
 * methods construct the same elements step by step and are proved equal to
 * these; the lemmas here state what the elements contain.
 */
module Render {
  import opened Common
  import opened Dom
  import opened BuilderTypes
  import opened Validation

  // ---------------------------------------------------------------------------
  // Inline styles
  // ---------------------------------------------------------------------------

  /** `key.startsWith('--')`: a CSS custom property. */
  predicate IsCustomProperty(key: string)
  {
    |key| >= 2 && key[..2] == "--"
  }

  /** The style entries set one by one with `setProperty`. */
  function CustomProperties(styles: Style): map<string, string>
  {
    map k | k in styles && IsCustomProperty(k) :: styles[k]
  }

  /** The style entries collected and assigned in one batch. */
  function OrdinaryProperties(styles: Style): map<string, string>
  {
    map k | k in styles && !IsCustomProperty(k) :: styles[k]
  }

  /** `el` after its inline style received `styles`. */
  function WithStyles(el: Element, styles: Style): (r: Element)
    ensures r == el.(customProps := r.customProps, props := r.props)
  {
    el.(customProps := el.customProps + CustomProperties(styles),
        props := el.props + OrdinaryProperties(styles))
  }

  /**
   * The split is a partition of the style keys: every key lands in exactly
   * one group, custom properties are exactly the `--` keys, and values are
   * kept.
   */
  lemma StyleSplitIsPartition(styles: Style)
    ensures CustomProperties(styles).Keys !! OrdinaryProperties(styles).Keys
    ensures CustomProperties(styles).Keys + OrdinaryProperties(styles).Keys == styles.Keys
    ensures forall k :: k in CustomProperties(styles) <==> k in styles && IsCustomProperty(k)
    ensures forall k :: k in CustomProperties(styles) ==> CustomProperties(styles)[k] == styles[k]
    ensures forall k :: k in OrdinaryProperties(styles) ==> OrdinaryProperties(styles)[k] == styles[k]
  {
  }

  /** Adding one style entry adds it to exactly the group its key belongs to. */
  lemma StyleSplitAdd(styles: Style, key: string, value: string)
    ensures IsCustomProperty(key) ==>
      CustomProperties(styles[key := value]) == CustomProperties(styles)[key := value] &&
      OrdinaryProperties(styles[key := value]) == OrdinaryProperties(styles)
    ensures !IsCustomProperty(key) ==>
      CustomProperties(styles[key := value]) == CustomProperties(styles) &&
      OrdinaryProperties(styles[key := value]) == OrdinaryProperties(styles)[key := value]
  {
  }

  // ---------------------------------------------------------------------------
  // Attributes
  // ---------------------------------------------------------------------------

  /** The class string an element receives: the option when truthy, otherwise none. */
  function ClassNameOf(c: Option<string>): string
  {
    if Truthy(c) then c.value else ""
  }

  /** `if (v) el.setAttribute(name, v)`: a truthy string is set, anything else leaves the element as it was. */
  function SetOptionalAttribute(el: Element, name: AttrName, v: Option<string>): (r: Element)
    ensures r == el.(attrs := r.attrs)
  {
    if Truthy(v) then SetAttribute(el, name, Literal(v.value)) else el
  }

  /** A content value as an attribute: strings pass through, structured values are serialised. */
  function ContentValue(c: Content): AttrValue
  {
    match c
    case RawString(s) => Literal(s)
    case Structure(v) => Serialized(v)
  }

  // ---------------------------------------------------------------------------
  // Text entries
  // ---------------------------------------------------------------------------

  /** `el` with a boolean attribute set when `flag` holds. */
  function SetFlag(el: Element, name: AttrName, flag: bool): (r: Element)
    ensures r == el.(attrs := r.attrs)
  {
    if flag then SetAttribute(el, name, Literal("")) else el
  }

  /** `el` with the optional inline style applied. */
  function SetOptionalStyle(el: Element, style: Option<Style>): (r: Element)
    ensures r == el.(customProps := r.customProps, props := r.props)
  {
    if style.Some? then WithStyles(el, style.value) else el
  }

  /** The one content attribute of a text: `dl-content`, else `table-content`, else `text-content`, by truthiness. */
  function SetContent(el: Element, t: Entry): (r: Element)
    requires t.TextEntry?
    ensures r == el.(attrs := r.attrs)
  {
    if ContentTruthy(t.dlContent) then SetAttribute(el, DlContent, ContentValue(t.dlContent.value))
    else if ContentTruthy(t.tableContent) then SetAttribute(el, TableContent, ContentValue(t.tableContent.value))
    else SetOptionalAttribute(el, TextContent, t.textContent)
  }

  /** The `<admin-bar-text>` element made for a text entry (`_addChildText`). */
  function TextElement(t: Entry): (r: Element)
    requires t.TextEntry?
    ensures r.tag == "admin-bar-text" && r.children == [] && r.onClick == None
  {
    var el := Bare("admin-bar-text").(className := ClassNameOf(t.className));
    var badged := SetOptionalAttribute(SetOptionalAttribute(el, BadgeContent, t.badgeContent),
                                       BadgePosition, t.badgePosition);
    SetContent(SetOptionalStyle(SetFlag(badged, MultiLine, t.multiLine == Some(true)), t.style), t)
  }

  /**
   * The attributes of a text element: a badge and its position exactly when
   * truthy, `multi-line` exactly when the flag is `true`, and at most one of
   * `dl-content`, `table-content` and `text-content`, chosen by truthiness in
   * that priority (a string value is passed through, a structured one
   * serialised). An empty `textContent` therefore sets nothing, although it
   * makes the entry valid. No other attribute is set.
   */
  lemma TextElementAttributes(t: Entry)
    requires t.TextEntry?
    ensures var a := TextElement(t).attrs;
      && a.Keys <= {BadgeContent, BadgePosition, MultiLine, DlContent, TableContent, TextContent}
      && (BadgeContent in a <==> Truthy(t.badgeContent))
      && (BadgeContent in a ==> a[BadgeContent] == Literal(t.badgeContent.value))
      && (BadgePosition in a <==> Truthy(t.badgePosition))
      && (BadgePosition in a ==> a[BadgePosition] == Literal(t.badgePosition.value))
      && (MultiLine in a <==> t.multiLine == Some(true))
      && (DlContent in a <==> ContentTruthy(t.dlContent))
      && (TableContent in a <==> !ContentTruthy(t.dlContent) && ContentTruthy(t.tableContent))
      && (TextContent in a <==>
            !ContentTruthy(t.dlContent) && !ContentTruthy(t.tableContent) && Truthy(t.textContent))
      && (DlContent in a ==> a[DlContent] == ContentValue(t.dlContent.value))
      && (TableContent in a ==> a[TableContent] == ContentValue(t.tableContent.value))
      && (TextContent in a ==> a[TextContent] == Literal(t.textContent.value))
  {
    var el := Bare("admin-bar-text").(className := ClassNameOf(t.className));
    var badged := SetOptionalAttribute(SetOptionalAttribute(el, BadgeContent, t.badgeContent),
                                       BadgePosition, t.badgePosition);
    var flagged := SetFlag(badged, MultiLine, t.multiLine == Some(true));
    var styled := SetOptionalStyle(flagged, t.style);
    assert styled.attrs == flagged.attrs;
    assert DlContent !in styled.attrs && TableContent !in styled.attrs && TextContent !in styled.attrs;
  }

  // ---------------------------------------------------------------------------
  // Button entries
  // ---------------------------------------------------------------------------

  /** The one action a button applies. */
  datatype ButtonAction = OnClick | ShowPopover | Link | NoAction

  /** `onclick` if present, else a non-empty popover, else a truthy `buttonHref`. */
  function ActionOf(b: Entry): (r: ButtonAction)
    requires b.ButtonEntry?
    ensures r == OnClick <==> b.onclick.Some?
    ensures r == ShowPopover ==> b.popover.Popover? && |b.popover.children| > 0
    ensures r == Link ==> Truthy(b.buttonHref)
    ensures ChildIsValid(b) && r == NoAction ==> b.popover == Popover([]) || b.buttonHref == Some("")
  {
    if b.onclick.Some? then OnClick
    else if b.popover.Popover? && |b.popover.children| > 0 then ShowPopover
    else if Truthy(b.buttonHref) then Link
    else NoAction
  }

  /** A `<span>` carrying the given slot name and children. */
  function SlotSpan(name: string, children: seq<Element>): Element
  {
    Bare("span").(attrs := map[Slot := Literal(name)], children := children)
  }

  /** The `before-label` slot holding a parsed icon, present only for a truthy icon with no forbidden descendant. */
  function IconChildren(b: Entry): (r: seq<Element>)
    requires b.ButtonEntry?
    ensures |r| <= 1
    ensures r != [] <==> b.icon.Some? && b.icon.value.markup != "" && !HasForbiddenDescendant(b.icon.value.parsed)
    ensures r != [] ==> r[0].tag == "span" && r[0].attrs == map[Slot := Literal("before-label")]
                        && r[0].children == [b.icon.value.parsed]
  {
    if b.icon.Some? && b.icon.value.markup != "" && !HasForbiddenDescendant(b.icon.value.parsed)
    then [SlotSpan("before-label", [b.icon.value.parsed])]
    else []
  }

  /** The `popover` slot of a button: one element per popover child that is a button or a text. */
  function PopoverSlot(b: Entry): (r: Element)
    requires b.ButtonEntry? && b.popover.Popover?
    ensures r.tag == "span" && r.attrs == map[Slot := Literal("popover")]
    ensures |r.children| <= |b.popover.children|
    decreases b, 0
  {
    var cs := b.popover.children;
    var parts := seq(|cs|, i requires 0 <= i < |cs| => ElementsFor(cs[i]));
    ConcatAtMostOne(parts);
    SlotSpan("popover", Concat(parts))
  }

  /** The action `ActionOf` picks, applied to `el`. */
  function SetAction(el: Element, b: Entry): (r: Element)
    requires b.ButtonEntry?
    ensures r == el.(attrs := r.attrs, children := r.children, onClick := r.onClick)
    ensures r.children == el.children + (if ActionOf(b) == ShowPopover then [PopoverSlot(b)] else [])
    ensures r.onClick == if ActionOf(b) == OnClick then b.onclick else el.onClick
    ensures r.attrs == if ActionOf(b) == Link then el.attrs[ButtonHref := Literal(b.buttonHref.value)] else el.attrs
    decreases b, 1
  {
    match ActionOf(b)
    case OnClick => el.(onClick := b.onclick)
    case ShowPopover => AppendChild(el, PopoverSlot(b))
    case Link => SetAttribute(el, ButtonHref, Literal(b.buttonHref.value))
    case NoAction => el
  }

  /** The `<admin-bar-button>` element made for a button entry (`_addChildButton`). */
  function ButtonElement(b: Entry): (r: Element)
    requires b.ButtonEntry?
    ensures r.tag == "admin-bar-button"
    decreases b, 2
  {
    var labelled := SetOptionalAttribute(
      Bare("admin-bar-button").(className := ClassNameOf(b.className), children := IconChildren(b)),
      LabelText, b.labelText);
    SetOptionalStyle(SetAction(labelled, b), b.style)
  }

  /** The element made for a button or a text entry. */
  function EntryElement(e: Entry): Element
    requires !e.OtherEntry?
    decreases e, 3
  {
    if e.ButtonEntry? then ButtonElement(e) else TextElement(e)
  }

  /** The elements appended for one entry: one for a button or a text, none for any other type. */
  function ElementsFor(e: Entry): seq<Element>
    decreases e, 4
  {
    if e.OtherEntry? then [] else [EntryElement(e)]
  }

  /** The elements appended, in order, for a list of entries. */
  function EntryElements(s: seq<Entry>): seq<Element>
  {
    Concat(seq(|s|, i requires 0 <= i < |s| => ElementsFor(s[i])))
  }

  /** Appending one more entry appends exactly its elements. */
  lemma EntryElementsSnoc(s: seq<Entry>, x: Entry)
    ensures EntryElements(s + [x]) == EntryElements(s) + ElementsFor(x)
  {
    var t := s + [x];
    var parts := seq(|t|, i requires 0 <= i < |t| => ElementsFor(t[i]));
    assert parts[..|parts| - 1] == seq(|s|, i requires 0 <= i < |s| => ElementsFor(s[i]));
  }

  /** For a list of valid entries, exactly one element per entry, in order. */
  lemma EntryElementsOfValid(s: seq<Entry>)
    requires forall i :: 0 <= i < |s| ==> ChildIsValid(s[i])
    ensures |EntryElements(s)| == |s|
    ensures forall i :: 0 <= i < |s| ==> !s[i].OtherEntry? && EntryElements(s)[i] == EntryElement(s[i])
  {
    var parts := seq(|s|, i requires 0 <= i < |s| => ElementsFor(s[i]));
    forall i | 0 <= i < |s| ensures |parts[i]| == 1 {
      assert !s[i].OtherEntry?;
    }
    ConcatSingletons(parts);
  }

  /** `el` holds a child `<span>` for the named slot. */
  predicate HasSlot(el: Element, name: string)
  {
    exists i :: 0 <= i < |el.children| && SlotOf(el.children[i]) == Some(name)
  }

  /** The slot name an element carries, if any. */
  function SlotOf(el: Element): Option<string>
  {
    if Slot in el.attrs && el.attrs[Slot].Literal? then Some(el.attrs[Slot].s) else None
  }

  /**
   * A button keeps its class string, carries `label-text` exactly when the
   * label is truthy, and starts with a `before-label` slot holding the parsed
   * icon exactly when the icon is truthy and has no forbidden descendant.
   */
  lemma ButtonLabelAndIcon(b: Entry)
    requires b.ButtonEntry?
    ensures var el := ButtonElement(b);
      && el.className == ClassNameOf(b.className)
      && (LabelText in el.attrs <==> Truthy(b.labelText))
      && (LabelText in el.attrs ==> el.attrs[LabelText] == Literal(b.labelText.value))
      && (HasSlot(el, "before-label") <==>
            b.icon.Some? && b.icon.value.markup != "" && !HasForbiddenDescendant(b.icon.value.parsed))
      && (HasSlot(el, "before-label") ==> el.children[0] == SlotSpan("before-label", [b.icon.value.parsed]))
  {
    var el := ButtonElement(b);
    var icon := IconChildren(b);
    var labelled := SetOptionalAttribute(
      Bare("admin-bar-button").(className := ClassNameOf(b.className), children := icon),
      LabelText, b.labelText);
    var acted := SetAction(labelled, b);
    assert el.children == acted.children && el.attrs == acted.attrs;
    assert LabelText in acted.attrs <==> LabelText in labelled.attrs;
    if ActionOf(b) == ShowPopover {
      assert el.children == icon + [PopoverSlot(b)];
      assert SlotOf(PopoverSlot(b)) == Some("popover");
    } else {
      assert el.children == icon;
    }
    if icon != [] {
      assert SlotOf(el.children[0]) == Some("before-label");
    }
    if HasSlot(el, "before-label") {
      var i :| 0 <= i < |el.children| && SlotOf(el.children[i]) == Some("before-label");
      assert i < |icon|;
    }
  }

  /**
   * A button applies exactly the action `ActionOf` picks and no other: a
   * click listener iff `onclick` is present; otherwise a popover slot iff the
   * popover is non-empty; otherwise `button-href` iff the href is truthy.
   */
  lemma ButtonAppliesOneAction(b: Entry)
    requires b.ButtonEntry?
    ensures var el := ButtonElement(b);
      && (el.onClick.Some? <==> b.onclick.Some?)
      && (el.onClick.Some? ==> el.onClick == b.onclick)
      && (HasSlot(el, "popover") <==> b.onclick.None? && b.popover.Popover? && |b.popover.children| > 0)
      && (ButtonHref in el.attrs <==>
            b.onclick.None? && !(b.popover.Popover? && |b.popover.children| > 0) && Truthy(b.buttonHref))
      && (ButtonHref in el.attrs ==> el.attrs[ButtonHref] == Literal(b.buttonHref.value))
  {
    var el := ButtonElement(b);
    var icon := IconChildren(b);
    assert forall i :: 0 <= i < |icon| ==> SlotOf(icon[i]) == Some("before-label");
    if ActionOf(b) == ShowPopover {
      assert el.children[|icon|] == PopoverSlot(b);
      assert SlotOf(el.children[|icon|]) == Some("popover");
    } else {
      assert el.children == icon;
    }
  }

  /**
   * The popover slot of a valid button with a non-empty popover (and no
   * `onclick`) holds one element per popover child, in order: a valid
   * button's popover is never partially rendered.
   */
  lemma PopoverRenderedWhole(b: Entry)
    requires b.ButtonEntry? && ChildIsValid(b) && ActionOf(b) == ShowPopover
    ensures var el := ButtonElement(b);
            var cs := b.popover.children;
            var slot := el.children[|el.children| - 1];
      && SlotOf(slot) == Some("popover")
      && |slot.children| == |cs|
      && forall i :: 0 <= i < |cs| ==> !cs[i].OtherEntry? && slot.children[i] == EntryElement(cs[i])
  {
    var cs := b.popover.children;
    var parts := seq(|cs|, i requires 0 <= i < |cs| => ElementsFor(cs[i]));
    assert Concat(parts) == EntryElements(cs);
    EntryElementsOfValid(cs);
  }

  // ---------------------------------------------------------------------------
  // The <admin-bar> root
  // ---------------------------------------------------------------------------

  /** The flex spacer appended after the entries. */
  function Spacer(): Element
  {
    Bare("span").(props := map["flexGrow" := "1"])
  }

  const EnvironmentStyleKey := "--admin-bar-text-label-color-bg"
  const EnvironmentStyleValue := "var(--admin-bar-environment-bg-color)"

  /** The text entry built for the environment block: its badge and one style property, no content. */
  function EnvironmentEntry(env: EnvironmentData): (t: Entry)
    ensures t.TextEntry?
  {
    TextEntry(None, env.badge, None, None, Some(map[EnvironmentStyleKey := EnvironmentStyleValue]),
              None, None, None)
  }

  /** `adminBarId ?? 'admin-bar'`: an empty id is kept, only an absent one is replaced. */
  function IdOf(options: BuilderOptions): string
  {
    if options.adminBarId.Some? then options.adminBarId.value else "admin-bar"
  }

  /** The root element before any entry is appended: id, class and style from the options. */
  function RootShell(options: BuilderOptions): (r: Element)
    ensures r.tag == "admin-bar" && r.children == []
    ensures Id in r.attrs && r.attrs[Id] == Literal(IdOf(options))
    ensures forall k :: k != Id ==> k !in r.attrs
  {
    var root := SetAttribute(Bare("admin-bar"), Id, Literal(IdOf(options)))
                  .(className := ClassNameOf(options.adminBarClass));
    if options.adminBarStyle.Some? then WithStyles(root, options.adminBarStyle.value) else root
  }

  /** The greeting block's attributes, set one by one on the root when the block is present. */
  function SetGreeting(el: Element, greeting: Option<GreetingData>): (r: Element)
    ensures r == el.(attrs := r.attrs)
    ensures ShowGreeting in r.attrs <==> greeting.Some? || ShowGreeting in el.attrs
  {
    if greeting.None? then el
    else
      var g := greeting.value;
      SetOptionalAttribute(SetOptionalAttribute(SetOptionalAttribute(
        SetAttribute(el, ShowGreeting, Literal("")),
        AvatarAlt, g.avatarAlt), AvatarSrc, g.avatarSrc), GreetingText, g.text)
  }

  /** The logout block's attributes, set one by one on the root when the block is present. */
  function SetLogout(el: Element, logout: Option<LogoutData>): (r: Element)
    ensures r == el.(attrs := r.attrs)
    ensures ShowLogout in r.attrs <==> logout.Some? || ShowLogout in el.attrs
  {
    if logout.None? then el
    else
      var l := logout.value;
      SetOptionalAttribute(SetOptionalAttribute(
        SetAttribute(el, ShowLogout, Literal("")),
        LogoutHref, l.href), LogoutLabel, l.labelText)
  }

  /** The environment block, when present: `show-environment` and the environment text appended last. */
  function SetEnvironment(el: Element, envText: Option<Element>): (r: Element)
    ensures r == el.(attrs := r.attrs, children := r.children)
    ensures r.children == el.children + (if envText.Some? then [envText.value] else [])
    ensures forall k :: k != ShowEnvironment ==>
      (k in r.attrs <==> k in el.attrs) && (k in r.attrs ==> r.attrs[k] == el.attrs[k])
    ensures ShowEnvironment in r.attrs <==> envText.Some? || ShowEnvironment in el.attrs
  {
    if envText.None? then el
    else AppendChild(SetAttribute(el, ShowEnvironment, Literal("")), envText.value)
  }

  /** The text element rendered for the environment block, if there is one. */
  function EnvironmentText(env: Option<EnvironmentData>): (r: Option<Element>)
    ensures r.Some? <==> env.Some?
  {
    if env.Some? then Some(TextElement(EnvironmentEntry(env.value))) else None
  }

  /** The root assembled around already-built entry elements. */
  function AdminBarRoot(options: BuilderOptions, entries: seq<Element>, envText: Option<Element>,
                        greeting: Option<GreetingData>, logout: Option<LogoutData>): Element
  {
    var spaced := AppendChild(RootShell(options).(children := entries), Spacer());
    SetLogout(SetGreeting(SetEnvironment(spaced, envText), greeting), logout)
  }

  /** The `<admin-bar>` element `getAdminBar` builds from formatted data. */
  function AdminBarElement(data: AdminBarData, options: BuilderOptions): (r: Element)
    ensures r.tag == "admin-bar"
    ensures |r.children| == |EntryElements(data.buttons)| + 1 + (if data.environment.Some? then 1 else 0)
    ensures r.children[..|EntryElements(data.buttons)|] == EntryElements(data.buttons)
    ensures r.children[|EntryElements(data.buttons)|] == Spacer()
  {
    AdminBarRoot(options, EntryElements(data.buttons), EnvironmentText(data.environment),
                 data.greeting, data.logout)
  }

  /**
   * The greeting block sets `show-greeting` exactly when the block is present,
   * and each of its fields exactly when the block is present and the field
   * truthy, with the field's value; every other attribute is left alone.
   */
  lemma GreetingAttributes(el: Element, greeting: Option<GreetingData>)
    requires ShowGreeting !in el.attrs && AvatarAlt !in el.attrs && AvatarSrc !in el.attrs
    requires GreetingText !in el.attrs
    ensures var a := SetGreeting(el, greeting).attrs;
            var g := if greeting.Some? then greeting.value else GreetingData(None, None, false, None);
      && (ShowGreeting in a <==> greeting.Some?)
      && (AvatarAlt in a <==> greeting.Some? && Truthy(g.avatarAlt))
      && (AvatarSrc in a <==> greeting.Some? && Truthy(g.avatarSrc))
      && (GreetingText in a <==> greeting.Some? && Truthy(g.text))
      && (ShowGreeting in a ==> a[ShowGreeting] == Literal(""))
      && (AvatarAlt in a ==> a[AvatarAlt] == Literal(g.avatarAlt.value))
      && (AvatarSrc in a ==> a[AvatarSrc] == Literal(g.avatarSrc.value))
      && (GreetingText in a ==> a[GreetingText] == Literal(g.text.value))
  {
  }

  /**
   * The logout block sets `show-logout` exactly when the block is present, and
   * `logout-href` and `logout-label` exactly when the block is present and the
   * field truthy, with the field's value; every other attribute is left alone.
   */
  lemma LogoutAttributes(el: Element, logout: Option<LogoutData>)
    requires ShowLogout !in el.attrs && LogoutHref !in el.attrs && LogoutLabel !in el.attrs
    ensures var a := SetLogout(el, logout).attrs;
            var l := if logout.Some? then logout.value else LogoutData(false, None, None);
      && (ShowLogout in a <==> logout.Some?)
      && (LogoutHref in a <==> logout.Some? && Truthy(l.href))
      && (LogoutLabel in a <==> logout.Some? && Truthy(l.labelText))
      && (ShowLogout in a ==> a[ShowLogout] == Literal(""))
      && (LogoutHref in a ==> a[LogoutHref] == Literal(l.href.value))
      && (LogoutLabel in a ==> a[LogoutLabel] == Literal(l.labelText.value))
  {
  }

  /** The greeting block leaves attribute `k` alone when `k` is not one of its own four. */
  lemma GreetingKeeps(el: Element, greeting: Option<GreetingData>, k: AttrName)
    requires k != ShowGreeting && k != AvatarAlt && k != AvatarSrc && k != GreetingText
    ensures var r := SetGreeting(el, greeting);
      (k in r.attrs <==> k in el.attrs) && (k in r.attrs ==> r.attrs[k] == el.attrs[k])
  {
  }

  /** The logout block leaves attribute `k` alone when `k` is not one of its own three. */
  lemma LogoutKeeps(el: Element, logout: Option<LogoutData>, k: AttrName)
    requires k != ShowLogout && k != LogoutHref && k != LogoutLabel
    ensures var r := SetLogout(el, logout);
      (k in r.attrs <==> k in el.attrs) && (k in r.attrs ==> r.attrs[k] == el.attrs[k])
  {
  }

  /** The root's id and `show-…` flags, whatever entry elements it holds. */
  lemma RootAttributes(options: BuilderOptions, entries: seq<Element>, envText: Option<Element>,
                       greeting: Option<GreetingData>, logout: Option<LogoutData>)
    ensures var a := AdminBarRoot(options, entries, envText, greeting, logout).attrs;
      && Id in a && a[Id] == Literal(IdOf(options))
      && (ShowEnvironment in a <==> envText.Some?)
      && (ShowGreeting in a <==> greeting.Some?)
      && (ShowLogout in a <==> logout.Some?)
  {
    var shell := RootShell(options);
    var spaced := AppendChild(shell.(children := entries), Spacer());
    assert spaced.attrs == shell.attrs;
    assert ShowGreeting !in spaced.attrs && ShowLogout !in spaced.attrs && ShowEnvironment !in spaced.attrs;
    var e := SetEnvironment(spaced, envText);
    var g := SetGreeting(e, greeting);
    GreetingKeeps(e, greeting, Id);
    GreetingKeeps(e, greeting, ShowEnvironment);
    GreetingKeeps(e, greeting, ShowLogout);
    LogoutKeeps(g, logout, Id);
    LogoutKeeps(g, logout, ShowEnvironment);
    LogoutKeeps(g, logout, ShowGreeting);
  }

  /** The environment block adds no greeting or logout attribute to an element that has none. */
  lemma EnvironmentAddsNoBlockAttributes(el: Element, envText: Option<Element>)
    requires ShowGreeting !in el.attrs && AvatarAlt !in el.attrs && AvatarSrc !in el.attrs
    requires GreetingText !in el.attrs
    requires ShowLogout !in el.attrs && LogoutHref !in el.attrs && LogoutLabel !in el.attrs
    ensures var e := SetEnvironment(el, envText);
      && ShowGreeting !in e.attrs && AvatarAlt !in e.attrs && AvatarSrc !in e.attrs && GreetingText !in e.attrs
      && ShowLogout !in e.attrs && LogoutHref !in e.attrs && LogoutLabel !in e.attrs
  {
  }

  /** The root before its greeting and logout blocks carries none of their attributes. */
  lemma RootBeforeBlocks(options: BuilderOptions, entries: seq<Element>, envText: Option<Element>)
    ensures var e := SetEnvironment(AppendChild(RootShell(options).(children := entries), Spacer()), envText);
      && ShowGreeting !in e.attrs && AvatarAlt !in e.attrs && AvatarSrc !in e.attrs && GreetingText !in e.attrs
      && ShowLogout !in e.attrs && LogoutHref !in e.attrs && LogoutLabel !in e.attrs
  {
    var shell := RootShell(options);
    var spaced := AppendChild(shell.(children := entries), Spacer());
    assert spaced.attrs == shell.attrs;
    EnvironmentAddsNoBlockAttributes(spaced, envText);
  }

  /**
   * The greeting attributes on the root, whatever entry elements it holds:
   * each exactly when the block is present and the field truthy, with the
   * field's value.
   */
  lemma RootGreetingAttributes(options: BuilderOptions, entries: seq<Element>, envText: Option<Element>,
                               greeting: Option<GreetingData>, logout: Option<LogoutData>)
    ensures var a := AdminBarRoot(options, entries, envText, greeting, logout).attrs;
            var g := if greeting.Some? then greeting.value else GreetingData(None, None, false, None);
      && (AvatarAlt in a <==> greeting.Some? && Truthy(g.avatarAlt))
      && (AvatarSrc in a <==> greeting.Some? && Truthy(g.avatarSrc))
      && (GreetingText in a <==> greeting.Some? && Truthy(g.text))
      && (AvatarAlt in a ==> a[AvatarAlt] == Literal(g.avatarAlt.value))
      && (AvatarSrc in a ==> a[AvatarSrc] == Literal(g.avatarSrc.value))
      && (GreetingText in a ==> a[GreetingText] == Literal(g.text.value))
  {
    var e := SetEnvironment(AppendChild(RootShell(options).(children := entries), Spacer()), envText);
    RootBeforeBlocks(options, entries, envText);
    GreetingAttributes(e, greeting);
    var g := SetGreeting(e, greeting);
    LogoutKeeps(g, logout, AvatarAlt);
    LogoutKeeps(g, logout, AvatarSrc);
    LogoutKeeps(g, logout, GreetingText);
  }

  /**
   * The logout attributes on the root, whatever entry elements it holds:
   * each exactly when the block is present and the field truthy, with the
   * field's value.
   */
  lemma RootLogoutAttributes(options: BuilderOptions, entries: seq<Element>, envText: Option<Element>,
                             greeting: Option<GreetingData>, logout: Option<LogoutData>)
    ensures var a := AdminBarRoot(options, entries, envText, greeting, logout).attrs;
            var l := if logout.Some? then logout.value else LogoutData(false, None, None);
      && (LogoutHref in a <==> logout.Some? && Truthy(l.href))
      && (LogoutLabel in a <==> logout.Some? && Truthy(l.labelText))
      && (LogoutHref in a ==> a[LogoutHref] == Literal(l.href.value))
      && (LogoutLabel in a ==> a[LogoutLabel] == Literal(l.labelText.value))
  {
    var e := SetEnvironment(AppendChild(RootShell(options).(children := entries), Spacer()), envText);
    RootBeforeBlocks(options, entries, envText);
    GreetingKeeps(e, greeting, ShowLogout);
    GreetingKeeps(e, greeting, LogoutHref);
    GreetingKeeps(e, greeting, LogoutLabel);
    LogoutAttributes(SetGreeting(e, greeting), logout);
  }

  /**
   * The root carries its id (`adminBarId ?? 'admin-bar'`: an empty id is
   * kept) and `show-environment`, `show-greeting` and `show-logout` exactly
   * when the corresponding block is present; `avatar-alt`, `avatar-src`,
   * `greeting-text`, `logout-href` and `logout-label` exactly when their
   * block is present and the field truthy, with the field's value.
   */
  lemma AdminBarAttributes(data: AdminBarData, options: BuilderOptions)
    ensures var a := AdminBarElement(data, options).attrs;
            var g := if data.greeting.Some? then data.greeting.value else GreetingData(None, None, false, None);
            var l := if data.logout.Some? then data.logout.value else LogoutData(false, None, None);
      && Id in a && a[Id] == Literal(IdOf(options))
      && (ShowEnvironment in a <==> data.environment.Some?)
      && (ShowGreeting in a <==> data.greeting.Some?)
      && (ShowLogout in a <==> data.logout.Some?)
      && (AvatarAlt in a <==> data.greeting.Some? && Truthy(g.avatarAlt))
      && (AvatarSrc in a <==> data.greeting.Some? && Truthy(g.avatarSrc))
      && (GreetingText in a <==> data.greeting.Some? && Truthy(g.text))
      && (AvatarAlt in a ==> a[AvatarAlt] == Literal(g.avatarAlt.value))
      && (AvatarSrc in a ==> a[AvatarSrc] == Literal(g.avatarSrc.value))
      && (GreetingText in a ==> a[GreetingText] == Literal(g.text.value))
      && (LogoutHref in a <==> data.logout.Some? && Truthy(l.href))
      && (LogoutLabel in a <==> data.logout.Some? && Truthy(l.labelText))
      && (LogoutHref in a ==> a[LogoutHref] == Literal(l.href.value))
      && (LogoutLabel in a ==> a[LogoutLabel] == Literal(l.labelText.value))
  {
    RootAttributes(options, EntryElements(data.buttons), EnvironmentText(data.environment),
                   data.greeting, data.logout);
    RootGreetingAttributes(options, EntryElements(data.buttons), EnvironmentText(data.environment),
                           data.greeting, data.logout);
    RootLogoutAttributes(options, EntryElements(data.buttons), EnvironmentText(data.environment),
                         data.greeting, data.logout);
  }

  /**
   * The root's children are one element per (valid) entry in order, then
   * exactly one spacer, then the environment text only when the environment
   * block is present.
   */
  lemma AdminBarChildren(data: AdminBarData, options: BuilderOptions)
    requires forall i :: 0 <= i < |data.buttons| ==> ChildIsValid(data.buttons[i])
    ensures var el := AdminBarElement(data, options);
            var n := |data.buttons|;
      && el.tag == "admin-bar"
      && |el.children| == n + 1 + (if data.environment.Some? then 1 else 0)
      && (forall i :: 0 <= i < n ==> !data.buttons[i].OtherEntry? && el.children[i] == EntryElement(data.buttons[i]))
      && el.children[n] == Spacer()
      && (data.environment.Some? ==>
            el.children[n + 1] == TextElement(EnvironmentEntry(data.environment.value)))
  {
    EntryElementsOfValid(data.buttons);
  }

  /**
   * Rendering formatted data never puts a `badge-content` on the
   * environment text, whatever badge the caller passed: formatting copies only
   * `enable` and `label`, and the label is never rendered.
   */
  lemma EnvironmentTextHasNoBadge(data: AdminBarData, options: BuilderOptions)
    requires FormatData(data).Some?
    requires data.environment.Some? && data.environment.value.enable
    ensures var f := FormatData(data).value;
            var el := AdminBarElement(f, options);
            var env := el.children[|el.children| - 1];
      && env == TextElement(EnvironmentEntry(f.environment.value))
      && BadgeContent !in env.attrs
      && ShowEnvironment in el.attrs
  {
    var f := FormatData(data).value;
    FormatDataShape(data);
    AdminBarChildren(f, options);
    AdminBarAttributes(f, options);
  }
}
