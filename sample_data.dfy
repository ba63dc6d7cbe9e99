/**
 * An abridged copy of the sample description the package's tests hand to the
 * builder: two buttons and a text that are valid, a checkbox, and a button
 * whose popover holds an invalid text. Icon markup is shortened, the avatar
 * source is a placeholder, and fields the builder never reads are left out.
 * The lemmas state what formatting and rendering do with it.
 */
module SampleData {
  import opened Common
  import opened Dom
  import opened BuilderTypes
  import opened Validation
  import opened Render

  /** The parsed pencil icon: an `svg` root with one `path` below it. */
  function PencilSvg(): Element
  {
    Bare("svg").(children := [Bare("path")])
  }

  /** The parsed icon carrying a `<script>`: an `svg` root with a `p` and a `script` below it. */
  function ScriptSvg(): Element
  {
    Bare("svg").(children := [Bare("p"), Bare("script")])
  }

  /** A text entry with only `textContent`. */
  function PlainText(content: string): Entry
  {
    TextEntry(None, None, None, None, None, None, None, Some(content))
  }

  /** A link button with the pencil icon. */
  function Dashboard(): Entry
  {
    ButtonEntry(None, Some("https://wbrowar.com/web-components/admin-bar-component"), Some(Icon("<svg/>", PencilSvg())),
                Some("Dashboard"), None, NoPopover, None)
  }

  /** A button with the unsafe icon and a popover holding one valid text. */
  function PopoverChildren(): Entry
  {
    ButtonEntry(None, None, Some(Icon("<svg><script/></svg>", ScriptSvg())),
                Some("Popover Children"), None, Popover([PlainText("Popover content!")]), None)
  }

  /** A checkbox: a type the builder does not render. */
  function CheckboxEntry(): Entry
  {
    OtherEntry("checkbox")
  }

  /** A button whose second popover child is a text with no content field. */
  function WillNotRender(): Entry
  {
    ButtonEntry(None, None, None, Some("Will not render"), None,
                Popover([PlainText("Popover content!"),
                         TextEntry(None, None, None, None, None, None, None, None)]), None)
  }

  /** A text with a badge. */
  function Message(): Entry
  {
    TextEntry(None, Some("67"), Some("before"), None, None, None, None, Some("This is a message!"))
  }

  /** The five entries, in the order the tests list them. */
  function SampleButtons(): seq<Entry>
  {
    [Dashboard(), PopoverChildren(), CheckboxEntry(), WillNotRender(), Message()]
  }

  /** The whole description, with every optional block enabled. */
  function Sample(): AdminBarData
  {
    AdminBarData(SampleButtons(),
                 Some(EnvironmentData(true, None, Some("DEV"))),
                 Some(GreetingData(Some("randomly generated image"), Some("avatar.png"), true, Some("Hello, Author"))),
                 Some(LogoutData(true, Some("/logout"), Some("Logout"))))
  }

  /** Which sample entries `childIsValid` accepts. */
  lemma SampleValidity()
    ensures ChildIsValid(Dashboard()) && ChildIsValid(PopoverChildren()) && ChildIsValid(Message())
    ensures !ChildIsValid(CheckboxEntry()) && !ChildIsValid(WillNotRender())
  {
    assert !ChildIsValid(WillNotRender().popover.children[1]);
    assert ChildIsValid(PopoverChildren().popover.children[0]);
  }

  /** Two valid entries are both kept. */
  lemma FilterTwo(a: Entry, b: Entry)
    requires ChildIsValid(a) && ChildIsValid(b)
    ensures ValidEntries([a, b]) == [a, b]
  {
    ValidEntriesAppend([], [a]);
    assert [] + [a] == [a];
    ValidEntriesAppend([a], [b]);
    assert [a] + [b] == [a, b];
  }

  /** Two valid entries followed by an invalid one: the first two are kept. */
  lemma FilterThree(a: Entry, b: Entry, c: Entry)
    requires ChildIsValid(a) && ChildIsValid(b) && !ChildIsValid(c)
    ensures ValidEntries([a, b, c]) == [a, b]
  {
    FilterTwo(a, b);
    ValidEntriesAppend([a, b], [c]);
    assert [a, b] + [c] == [a, b, c];
  }

  /** Two valid entries followed by two invalid ones: the first two are kept. */
  lemma FilterFour(a: Entry, b: Entry, c: Entry, d: Entry)
    requires ChildIsValid(a) && ChildIsValid(b) && !ChildIsValid(c) && !ChildIsValid(d)
    ensures ValidEntries([a, b, c, d]) == [a, b]
  {
    FilterThree(a, b, c);
    ValidEntriesAppend([a, b, c], [d]);
    assert [a, b, c] + [d] == [a, b, c, d];
  }

  /** Filtering five entries of which the third and fourth are invalid keeps the other three, in order. */
  lemma FilterFive(a: Entry, b: Entry, c: Entry, d: Entry, e: Entry)
    requires ChildIsValid(a) && ChildIsValid(b) && !ChildIsValid(c) && !ChildIsValid(d) && ChildIsValid(e)
    ensures ValidEntries([a, b, c, d, e]) == [a, b, e]
  {
    FilterFour(a, b, c, d);
    ValidEntriesAppend([a, b, c, d], [e]);
    assert [a, b, c, d] + [e] == [a, b, c, d, e];
    assert [a, b] + [e] == [a, b, e];
  }

  /**
   * Formatting keeps the dashboard button, the popover button and the text,
   * in that order; the checkbox and the button with the invalid popover
   * child are dropped, and the environment block loses its badge.
   */
  lemma SampleFormatted()
    ensures FormatData(Sample()).Some?
    ensures FormatData(Sample()).value.buttons == [Dashboard(), PopoverChildren(), Message()]
    ensures FormatData(Sample()).value.environment == Some(EnvironmentData(true, None, None))
  {
    SampleValidity();
    FilterFive(Dashboard(), PopoverChildren(), CheckboxEntry(), WillNotRender(), Message());
  }

  /** The icon holding a `<script>` is detected, so the popover button renders no `before-label` slot. */
  lemma ScriptIconDropped()
    ensures HasForbiddenDescendant(ScriptSvg())
    ensures IconChildren(PopoverChildren()) == []
    ensures !HasForbiddenDescendant(PencilSvg())
    ensures IconChildren(Dashboard()) == [SlotSpan("before-label", [PencilSvg()])]
  {
    assert IsForbiddenTag(ScriptSvg().children[1].tag);
    assert !HasForbiddenDescendant(PencilSvg().children[0]);
  }
}
