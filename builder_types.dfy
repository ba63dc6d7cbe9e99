/**
 * The declarative description the builder accepts (the `Builder*` types of the
 * package's type declarations), together with JavaScript truthiness for the
 * optional fields the builder tests with `if (field)`.
 */
module BuilderTypes {
  import opened Common
  import opened Dom

  /** Inline style: property name to value (`Record<string, string>`). */
  type Style = map<string, string>

  /** Definition-list or table content: a string is passed through, any other value is serialised to JSON. */
  datatype Content = RawString(s: string) | Structure(v: Structured)

  /**
   * An icon: its SVG markup and the root element that `DOMParser` produces
   * for it as `image/svg+xml`. Parsing is a foreign call, so the parsed tree
   * is part of the input.
   */
  datatype Icon = Icon(markup: string, parsed: Element)

  /** A button's `popover` field: absent, or an array of child entries (possibly empty). */
  datatype Popover = NoPopover | Popover(children: seq<Entry>)

  /**
   * One entry of the `buttons` list, discriminated by its `type` field:
   * `'button'`, `'text'`, or any other type (such as `'checkbox'`), which the
   * builder neither validates nor renders. Only the fields the builder reads
   * are kept.
   */
  datatype Entry =
    | ButtonEntry(
        className: Option<string>,
        buttonHref: Option<string>,
        icon: Option<Icon>,
        labelText: Option<string>,
        onclick: Option<Handler>,
        popover: Popover,
        style: Option<Style>)
    | TextEntry(
        className: Option<string>,
        badgeContent: Option<string>,
        badgePosition: Option<string>,
        multiLine: Option<bool>,
        style: Option<Style>,
        dlContent: Option<Content>,
        tableContent: Option<Content>,
        textContent: Option<string>)
    | OtherEntry(typeName: string)

  /** The environment block (`labelText` is its `label` field; `badge` is a field callers pass although it is not declared). */
  datatype EnvironmentData = EnvironmentData(enable: bool, labelText: Option<string>, badge: Option<string>)

  datatype GreetingData = GreetingData(
    avatarAlt: Option<string>, avatarSrc: Option<string>, enable: bool, text: Option<string>)

  /** The logout block (`labelText` is its `label` field). */
  datatype LogoutData = LogoutData(enable: bool, href: Option<string>, labelText: Option<string>)

  /** The whole description; an absent `buttons` list behaves exactly like an empty one. */
  datatype AdminBarData = AdminBarData(
    buttons: seq<Entry>,
    environment: Option<EnvironmentData>,
    greeting: Option<GreetingData>,
    logout: Option<LogoutData>)

  /** Attributes for the `<admin-bar>` element itself. */
  datatype BuilderOptions = BuilderOptions(
    adminBarClass: Option<string>,
    adminBarId: Option<string>,
    adminBarStyle: Option<Style>)

  /** `if (s)` on an optional string: present and non-empty. */
  predicate Truthy(s: Option<string>)
  {
    s.Some? && s.value != ""
  }

  /** `if (c)` on optional content: a non-empty string, or any structured value (objects are truthy). */
  predicate ContentTruthy(c: Option<Content>)
  {
    c.Some? && (c.value.RawString? ==> c.value.s != "")
  }
}
