/**
 * `defineAdminBarElements`: registers the `<admin-bar>` element and the
 * supporting elements a caller lists, each only when its name is not yet
 * taken in the custom element registry.
 */
module Registry {
  import opened Common

  /** A supporting element a caller may list. */
  datatype ElementName = Button | Checkbox | Text

  /** The element classes the function registers. */
  datatype ElemKind = AdminBarClass | AdminBarButtonClass | AdminBarCheckboxClass | AdminBarTextClass

  /** The suffix after `admin-bar-` for each listed element. */
  function Suffix(e: ElementName): string
  {
    match e
    case Button => "button"
    case Checkbox => "checkbox"
    case Text => "text"
  }

  /** `admin-bar-${element}`. */
  function TagName(e: ElementName): (r: string)
    ensures r != "admin-bar"
  {
    "admin-bar-" + Suffix(e)
  }

  /** The class the `switch` picks for each listed element. */
  function KindFor(e: ElementName): ElemKind
  {
    match e
    case Button => AdminBarButtonClass
    case Checkbox => AdminBarCheckboxClass
    case Text => AdminBarTextClass
  }

  /** Distinct listed elements get distinct tag names. */
  lemma TagNameInjective(a: ElementName, b: ElementName)
    ensures TagName(a) == TagName(b) <==> a == b
  {
    if a != b {
      assert TagName(a)[10] != TagName(b)[10];
    }
  }

  /** `if (!customElements.get(name)) customElements.define(name, kind)`. */
  function DefineIfAbsent(m: map<string, ElemKind>, name: string, kind: ElemKind): (r: map<string, ElemKind>)
    ensures name in r
    ensures name in m ==> r == m
    ensures name !in m ==> r == m[name := kind]
  {
    if name in m then m else m[name := kind]
  }

  /** The registry after the loop over `list`, element by element in order. */
  function DefineList(m: map<string, ElemKind>, list: seq<ElementName>): (r: map<string, ElemKind>)
    ensures m.Keys <= r.Keys
  {
    if list == [] then m
    else
      var e := list[|list| - 1];
      DefineIfAbsent(DefineList(m, list[..|list| - 1]), TagName(e), KindFor(e))
  }

  /** The registry after the whole call: the listed elements, then `admin-bar`. */
  function Registered(m: map<string, ElemKind>, list: seq<ElementName>): (r: map<string, ElemKind>)
    ensures "admin-bar" in r && m.Keys <= r.Keys
  {
    DefineIfAbsent(DefineList(m, list), "admin-bar", AdminBarClass)
  }

  /** The loop defines every listed tag name. */
  lemma {:induction false} DefineListCovers(m: map<string, ElemKind>, list: seq<ElementName>)
    ensures forall i :: 0 <= i < |list| ==> TagName(list[i]) in DefineList(m, list)
  {
    if list != [] {
      var init := list[..|list| - 1];
      DefineListCovers(m, init);
      forall i | 0 <= i < |init| ensures TagName(list[i]) in DefineList(m, list) {
        assert list[i] == init[i];
      }
    }
  }

  /** A name defined before the loop keeps its class. */
  lemma {:induction false} DefineListKeeps(m: map<string, ElemKind>, list: seq<ElementName>)
    ensures forall n :: n in m ==> n in DefineList(m, list) && DefineList(m, list)[n] == m[n]
  {
    if list != [] {
      DefineListKeeps(m, list[..|list| - 1]);
    }
  }

  /** A name the loop defines is a listed tag name, with the class the `switch` picks for it. */
  lemma {:induction false} DefineListAddsListed(m: map<string, ElemKind>, list: seq<ElementName>)
    ensures forall n :: n in DefineList(m, list) && n !in m ==>
      exists i :: 0 <= i < |list| && n == TagName(list[i]) && DefineList(m, list)[n] == KindFor(list[i])
  {
    if list != [] {
      var init := list[..|list| - 1];
      DefineListAddsListed(m, init);
      var before := DefineList(m, init);
      forall n | n in DefineList(m, list) && n !in m
        ensures exists i :: 0 <= i < |list| && n == TagName(list[i]) && DefineList(m, list)[n] == KindFor(list[i])
      {
        if n in before {
          var i :| 0 <= i < |init| && n == TagName(init[i]) && before[n] == KindFor(init[i]);
          assert list[i] == init[i];
        } else {
          assert n == TagName(list[|list| - 1]);
        }
      }
    }
  }

  /**
   * After a call, `admin-bar` and every listed tag name are registered;
   * names that were registered keep their class; a newly registered listed
   * name gets the class the `switch` picks, and a newly registered
   * `admin-bar` gets `AdminBar`; no other name is added.
   */
  lemma RegisteredCharacterised(m: map<string, ElemKind>, list: seq<ElementName>)
    ensures var r := Registered(m, list);
      && "admin-bar" in r
      && (forall i :: 0 <= i < |list| ==> TagName(list[i]) in r)
      && (forall n :: n in m ==> n in r && r[n] == m[n])
      && ("admin-bar" !in m ==> r["admin-bar"] == AdminBarClass)
      && (forall i :: 0 <= i < |list| && TagName(list[i]) !in m ==> r[TagName(list[i])] == KindFor(list[i]))
      && (forall n :: n in r && n !in m ==> n == "admin-bar" || exists i :: 0 <= i < |list| && n == TagName(list[i]))
  {
    DefineListCovers(m, list);
    DefineListKeeps(m, list);
    DefineListAddsListed(m, list);
    forall i | 0 <= i < |list| && TagName(list[i]) !in m
      ensures Registered(m, list)[TagName(list[i])] == KindFor(list[i])
    {
      NewListedNameClass(m, list, i);
    }
  }

  /** A listed name that was free before the call gets the class the `switch` picks for it. */
  lemma NewListedNameClass(m: map<string, ElemKind>, list: seq<ElementName>, i: int)
    requires 0 <= i < |list| && TagName(list[i]) !in m
    ensures TagName(list[i]) in Registered(m, list)
    ensures Registered(m, list)[TagName(list[i])] == KindFor(list[i])
  {
    DefineListCovers(m, list);
    DefineListAddsListed(m, list);
    var before := DefineList(m, list);
    var j :| 0 <= j < |list| && TagName(list[i]) == TagName(list[j]) && before[TagName(list[i])] == KindFor(list[j]);
    TagNameInjective(list[i], list[j]);
  }

  /** Calling twice with the same list leaves the registry as one call did. */
  lemma RegisteredIdempotent(m: map<string, ElemKind>, list: seq<ElementName>)
    ensures Registered(Registered(m, list), list) == Registered(m, list)
  {
    var r := Registered(m, list);
    RegisteredCharacterised(m, list);
    RegisteredCharacterised(r, list);
    var rr := Registered(r, list);
    assert forall n :: n in rr ==> n in r;
    assert rr.Keys == r.Keys;
  }

  /** `window.customElements`: element names and the classes defined for them. */
  class CustomElementRegistry {
    var definitions: map<string, ElemKind>

    constructor (definitions: map<string, ElemKind>)
      ensures this.definitions == definitions
    {
      this.definitions := definitions;
    }

    /** `customElements.get`. */
    function Get(name: string): (r: Option<ElemKind>)
      reads this
      ensures r.Some? <==> name in definitions
      ensures r.Some? ==> r.value == definitions[name]
    {
      if name in definitions then Some(definitions[name]) else None
    }

    /** `customElements.define`; the registry refuses a name that is already taken. */
    method Define(name: string, kind: ElemKind)
      requires name !in definitions
      modifies this
      ensures definitions == old(definitions)[name := kind]
    {
      definitions := definitions[name := kind];
    }
  }

  /** `defineAdminBarElements(list)` against the given registry. */
  method DefineAdminBarElements(registry: CustomElementRegistry, list: seq<ElementName>)
    modifies registry
    ensures registry.definitions == Registered(old(registry.definitions), list)
  {
    ghost var start := registry.definitions;
    var i := 0;
    while i < |list|
      invariant 0 <= i <= |list|
      invariant registry.definitions == DefineList(start, list[..i])
    {
      var element := list[i];
      assert list[..i + 1][..i] == list[..i];
      var elementName := "admin-bar-" + Suffix(element);
      if registry.Get(elementName).None? {
        match element
        case Button => registry.Define(elementName, AdminBarButtonClass);
        case Checkbox => registry.Define(elementName, AdminBarCheckboxClass);
        case Text => registry.Define(elementName, AdminBarTextClass);
      }
      i := i + 1;
    }
    assert list[..i] == list;
    if registry.Get("admin-bar").None? {
      registry.Define("admin-bar", AdminBarClass);
    }
  }
}
