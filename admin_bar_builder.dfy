/**
 * `AdminBarBuilder`: holds a container, the formatted data and the root
 * options, and builds the `<admin-bar>` element by successive appends and
 * attribute settings. Every building method is proved to produce the element
 * the `Render` functions describe.
 */
module Builder {
  import opened Common
  import opened Dom
  import opened BuilderTypes
  import opened Validation
  import opened Render

  class AdminBarBuilder {
    /** The element whose children are replaced by the `<admin-bar>`; `null` until one is given. */
    var container: Container?

    /** Data formatted for render; `None` whenever no top-level entry was valid. */
    var formattedData: Option<AdminBarData>

    /** Options that add attributes to the `<admin-bar>` element. */
    var options: BuilderOptions

    /** Stored data only ever holds a non-empty list of valid entries. */
    ghost predicate Valid()
      reads this
    {
      formattedData.Some? ==>
        |formattedData.value.buttons| > 0 &&
        forall i :: 0 <= i < |formattedData.value.buttons| ==> ChildIsValid(formattedData.value.buttons[i])
    }

    /** The element `getAdminBar` returns in the current state: none without formatted data. */
    function Rendered(): Option<Element>
      reads this
    {
      if formattedData.None? then None else Some(AdminBarElement(formattedData.value, options))
    }

    /**
     * Stores the container and options, formats the data when given, and,
     * when `autoRender` is set and something renders, puts the `<admin-bar>`
     * into the container.
     */
    constructor (autoRender: bool, container: Container?, data: Option<AdminBarData>, options: BuilderOptions)
      modifies container
      ensures Valid()
      ensures this.container == container && this.options == options
      ensures formattedData == (if data.Some? then FormatData(data.value) else None)
      ensures container != null ==>
        container.children == (if autoRender && formattedData.Some? then [Rendered().value]
                               else old(container.children))
    {
      this.container := container;
      this.formattedData := None;
      this.options := options;
      new;
      if data.Some? {
        FormatAdminBarData(data.value);
      }
      if autoRender {
        var adminBarElement := GetAdminBar();
        if adminBarElement.Some? {
          AddAdminBar(adminBarElement);
        }
      }
    }

    /**
     * Replaces the container's children with the given element, or with the
     * one `getAdminBar` builds; with neither, the container is left as it was.
     */
    method AddAdminBar(adminBarElement: Option<Element>)
      requires Valid()
      modifies container
      ensures var shown := if adminBarElement.Some? then adminBarElement else Rendered();
        container != null ==>
          container.children == (if shown.Some? then [shown.value] else old(container.children))
    {
      var newAdminBarElement := adminBarElement;
      if newAdminBarElement.None? {
        newAdminBarElement := GetAdminBar();
      }
      if newAdminBarElement.Some? && container != null {
        container.ReplaceChildren(newAdminBarElement.value);
      }
    }

    /**
     * Builds the `<admin-bar>`: none without formatted data, otherwise
     * `AdminBarElement`, which holds one element per stored entry, then the
     * spacer, then the environment text exactly when there is an environment.
     */
    method GetAdminBar() returns (adminBar: Option<Element>)
      requires Valid()
      ensures adminBar == Rendered()
      ensures adminBar.Some? <==> formattedData.Some?
      ensures adminBar.Some? ==>
        var el := adminBar.value;
        var entries := formattedData.value.buttons;
        var n := |entries|;
        && el.tag == "admin-bar"
        && |el.children| == n + 1 + (if formattedData.value.environment.Some? then 1 else 0)
        && (forall i :: 0 <= i < n ==> el.children[i] == EntryElement(entries[i]))
        && el.children[n] == Spacer()
        && (formattedData.value.environment.Some? ==>
              el.children[n + 1] == TextElement(EnvironmentEntry(formattedData.value.environment.value)))
    {
      if formattedData.None? {
        return None;
      }
      var data := formattedData.value;
      var el := CreateRoot();
      el := AppendEntries(el, data.buttons);
      assert [] + EntryElements(data.buttons) == EntryElements(data.buttons);

      var spacer := Bare("span");
      spacer := spacer.(props := spacer.props["flexGrow" := "1"]);
      el := AppendChild(el, spacer);

      el := AddBlocks(el, data);
      AdminBarChildren(data, options);
      return Some(el);
    }

    /** The `<admin-bar>` element with the id, class and style the options give it. */
    method CreateRoot() returns (el: Element)
      ensures el == RootShell(options)
    {
      el := Bare("admin-bar");
      el := SetAttribute(el, Id, Literal(if options.adminBarId.Some? then options.adminBarId.value
                                           else "admin-bar"));
      if Truthy(options.adminBarClass) {
        el := el.(className := options.adminBarClass.value);
      }
      if options.adminBarStyle.Some? {
        el := AddStylesToElement(options.adminBarStyle.value, el);
      }
    }

    /** Appends the element of each button or text entry in turn; other entries are skipped. */
    method AppendEntries(root: Element, entries: seq<Entry>) returns (el: Element)
      ensures el == root.(children := root.children + EntryElements(entries))
    {
      el := root;
      var i := 0;
      assert EntryElements(entries[..0]) == [];
      while i < |entries|
        invariant 0 <= i <= |entries|
        invariant el == root.(children := root.children + EntryElements(entries[..i]))
      {
        var entry := entries[i];
        EntryElementsSnoc(entries[..i], entry);
        assert entries[..i + 1] == entries[..i] + [entry];
        el := AppendEntry(el, entry);
        assert el.children == root.children + EntryElements(entries[..i + 1]);
        i := i + 1;
      }
      assert entries[..i] == entries;
    }

    /** One step of the loop over `buttons`: a button or a text gets its element, any other type nothing. */
    method AppendEntry(root: Element, entry: Entry) returns (el: Element)
      ensures el == root.(children := root.children + ElementsFor(entry))
    {
      el := root;
      if entry.ButtonEntry? {
        var child := AddChildButton(entry);
        el := AppendChild(el, child);
      } else if entry.TextEntry? {
        var child := AddChildText(entry);
        el := AppendChild(el, child);
      } else {
        assert root.children + [] == root.children;
      }
    }

    /** The environment, greeting and logout blocks, each added only when present. */
    method AddBlocks(root: Element, data: AdminBarData) returns (el: Element)
      ensures el == SetLogout(SetGreeting(SetEnvironment(root, EnvironmentText(data.environment)),
                                          data.greeting), data.logout)
    {
      el := root;
      if data.environment.Some? {
        el := SetAttribute(el, ShowEnvironment, Literal(""));
        var environmentText := AddChildText(EnvironmentEntry(data.environment.value));
        el := AppendChild(el, environmentText);
      }
      ghost var withEnvironment := el;
      if data.greeting.Some? {
        var greeting := data.greeting.value;
        el := SetAttribute(el, ShowGreeting, Literal(""));
        el := SetOptionalAttribute(el, AvatarAlt, greeting.avatarAlt);
        el := SetOptionalAttribute(el, AvatarSrc, greeting.avatarSrc);
        el := SetOptionalAttribute(el, GreetingText, greeting.text);
      }
      assert el == SetGreeting(withEnvironment, data.greeting);
      ghost var withGreeting := el;
      if data.logout.Some? {
        var logout := data.logout.value;
        el := SetAttribute(el, ShowLogout, Literal(""));
        el := SetOptionalAttribute(el, LogoutHref, logout.href);
        el := SetOptionalAttribute(el, LogoutLabel, logout.labelText);
      }
    }

    method SetOptions(options: BuilderOptions)
      modifies this`options
      ensures this.options == options
    {
      this.options := options;
    }

    method SetContainer(element: Container)
      modifies this`container
      ensures container == element
    {
      container := element;
    }

    /** Replaces the stored data: the previous formatted data is always dropped first. */
    method SetData(data: AdminBarData)
      modifies this`formattedData
      ensures Valid()
      ensures formattedData == FormatData(data)
    {
      FormatAdminBarData(data);
    }

    /** Builds an `<admin-bar-button>`: icon slot, label, one action, then styles. */
    method AddChildButton(b: Entry) returns (buttonElement: Element)
      requires b.ButtonEntry?
      ensures buttonElement == ButtonElement(b)
      decreases b, 2
    {
      buttonElement := Bare("admin-bar-button");
      if Truthy(b.className) {
        buttonElement := buttonElement.(className := b.className.value);
      }
      if b.icon.Some? && b.icon.value.markup != "" {
        var svgElement := b.icon.value.parsed;
        var isValid := ValidateSvg(svgElement);
        if isValid {
          var beforeLabel := Bare("span");
          beforeLabel := SetAttribute(beforeLabel, Slot, Literal("before-label"));
          beforeLabel := AppendChild(beforeLabel, svgElement);
          assert beforeLabel == SlotSpan("before-label", [svgElement]);
          buttonElement := AppendChild(buttonElement, beforeLabel);
        }
      }
      assert buttonElement == Bare("admin-bar-button").(className := ClassNameOf(b.className), children := IconChildren(b));
      buttonElement := SetOptionalAttribute(buttonElement, LabelText, b.labelText);
      ghost var labelled := buttonElement;
      if b.onclick.Some? {
        buttonElement := buttonElement.(onClick := b.onclick);
      } else if b.popover.Popover? && |b.popover.children| > 0 {
        var popoverSlot := AddPopoverSlot(b);
        buttonElement := AppendChild(buttonElement, popoverSlot);
      } else if Truthy(b.buttonHref) {
        buttonElement := SetAttribute(buttonElement, ButtonHref, Literal(b.buttonHref.value));
      }
      assert buttonElement == SetAction(labelled, b);
      if b.style.Some? {
        // `_addChildButton` repeats the split of `_addStylesToElement` inline.
        buttonElement := AddStylesToElement(b.style.value, buttonElement);
      }
    }

    /** The `popover` slot of a button, built by appending each child's element in turn. */
    method AddPopoverSlot(b: Entry) returns (popoverSlot: Element)
      requires b.ButtonEntry? && b.popover.Popover?
      ensures popoverSlot == PopoverSlot(b)
      decreases b, 0
    {
      popoverSlot := Bare("span");
      popoverSlot := SetAttribute(popoverSlot, Slot, Literal("popover"));
      var children := b.popover.children;
      var i := 0;
      while i < |children|
        invariant 0 <= i <= |children|
        invariant popoverSlot == SlotSpan("popover", EntryElements(children[..i]))
      {
        var child := children[i];
        EntryElementsSnoc(children[..i], child);
        assert children[..i + 1] == children[..i] + [child];
        if child.ButtonEntry? {
          var childElement := AddChildButton(child);
          popoverSlot := AppendChild(popoverSlot, childElement);
        } else if child.TextEntry? {
          var childElement := AddChildText(child);
          popoverSlot := AppendChild(popoverSlot, childElement);
        }
        i := i + 1;
      }
      assert children[..i] == children;
    }

    /** Builds an `<admin-bar-text>`: class, badge, multi-line, styles, then one content attribute. */
    method AddChildText(t: Entry) returns (textElement: Element)
      requires t.TextEntry?
      ensures textElement == TextElement(t)
    {
      textElement := Bare("admin-bar-text");
      if Truthy(t.className) {
        textElement := textElement.(className := t.className.value);
      }
      textElement := SetOptionalAttribute(textElement, BadgeContent, t.badgeContent);
      textElement := SetOptionalAttribute(textElement, BadgePosition, t.badgePosition);
      if t.multiLine == Some(true) {
        textElement := SetAttribute(textElement, MultiLine, Literal(""));
      }
      if t.style.Some? {
        textElement := AddStylesToElement(t.style.value, textElement);
      }
      ghost var styled := textElement;
      if ContentTruthy(t.dlContent) {
        textElement := SetAttribute(textElement, DlContent, ContentValue(t.dlContent.value));
      } else if ContentTruthy(t.tableContent) {
        textElement := SetAttribute(textElement, TableContent, ContentValue(t.tableContent.value));
      } else {
        textElement := SetOptionalAttribute(textElement, TextContent, t.textContent);
      }
      assert textElement == SetContent(styled, t);
    }

    /**
     * Custom properties (`--` keys) are set one at a time as they are met;
     * every other key is collected and assigned in one batch at the end.
     */
    method AddStylesToElement(styles: Style, element: Element) returns (styled: Element)
      ensures styled == WithStyles(element, styles)
    {
      var cssProperties: map<string, string> := map[];
      styled := element;
      var remaining := styles.Keys;
      assert styles - remaining == map[];
      assert element.customProps + map[] == element.customProps;
      while remaining != {}
        invariant remaining <= styles.Keys
        invariant styled == element.(customProps := styled.customProps)
        invariant styled.customProps == element.customProps + CustomProperties(styles - remaining)
        invariant cssProperties == OrdinaryProperties(styles - remaining)
        decreases remaining
      {
        var key :| key in remaining;
        ghost var done := styles - remaining;
        MapMinusStep(styles, remaining, key);
        StyleSplitAdd(done, key, styles[key]);
        if IsCustomProperty(key) {
          MapUnionUpdate(element.customProps, CustomProperties(done), key, styles[key]);
          styled := styled.(customProps := styled.customProps[key := styles[key]]);
        } else {
          cssProperties := cssProperties[key := styles[key]];
        }
        remaining := remaining - {key};
      }
      assert styles - remaining == styles;
      styled := styled.(props := styled.props + cssProperties);
    }

    /**
     * Formats and stores the data: the previous data is dropped first, and
     * new data is stored only when some top-level entry is valid.
     */
    method FormatAdminBarData(data: AdminBarData)
      modifies this`formattedData
      ensures Valid()
      ensures formattedData == FormatData(data)
    {
      var isValid := false;
      formattedData := None;
      var validButtons: seq<Entry> := [];

      if |data.buttons| > 0 {
        var i := 0;
        while i < |data.buttons|
          invariant 0 <= i <= |data.buttons|
          invariant validButtons == ValidEntries(data.buttons[..i])
        {
          assert data.buttons[..i + 1][..i] == data.buttons[..i];
          if ChildIsValid(data.buttons[i]) {
            validButtons := validButtons + [data.buttons[i]];
          }
          i := i + 1;
        }
        assert data.buttons[..i] == data.buttons;
        if |validButtons| > 0 {
          isValid := true;
        }
      }

      var environment: Option<EnvironmentData> := None;
      if data.environment.Some? && data.environment.value.enable {
        environment := Some(EnvironmentData(data.environment.value.enable, data.environment.value.labelText, None));
      }
      var greeting: Option<GreetingData> := None;
      if data.greeting.Some? && data.greeting.value.enable {
        var g := data.greeting.value;
        greeting := Some(GreetingData(g.avatarAlt, g.avatarSrc, g.enable, g.text));
      }
      var logout: Option<LogoutData> := None;
      if data.logout.Some? && data.logout.value.enable {
        var l := data.logout.value;
        logout := Some(LogoutData(l.enable, l.href, l.labelText));
      }

      if isValid {
        formattedData := Some(AdminBarData(validButtons, environment, greeting, logout));
      }
      FormatDataShape(data);
    }

    /** True iff no element strictly below the root is a `parsererror` or a `script`. */
    method ValidateSvg(svg: Element) returns (isValid: bool)
      ensures isValid <==> !HasForbiddenDescendant(svg)
    {
      isValid := true;
      var names := DescendantTags(svg);
      var i := 0;
      while i < |names|
        invariant 0 <= i <= |names|
        invariant isValid <==> forall k :: 0 <= k < i ==> !IsForbiddenTag(names[k])
      {
        if names[i] in ["parsererror", "script"] {
          isValid := false;
        }
        i := i + 1;
      }
      if isValid && HasForbiddenDescendant(svg) {
        DescendantTagIsListed(svg);
      } else if !isValid {
        assert ListsForbiddenTag(names);
        ListedTagIsDescendant(svg);
      }
    }
  }
}
