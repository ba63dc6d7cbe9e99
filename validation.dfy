/**
 * The builder's structural validation and data formatting: every top-level
 * entry is checked with a recursive predicate, the valid ones are kept in
 * order, and the optional blocks are copied in their formatted shape.
 */
module Validation {
  import opened Common
  import opened Dom
  import opened BuilderTypes

  /**
   * `childIsValid`. A button needs `onclick`, `popover` (an empty array
   * counts) or `buttonHref` to be defined, and when its popover is non-empty
   * every popover child must be valid too (the source folds `&&` over the
   * children). A text needs one of its three content fields to be defined (an
   * empty string counts). Any other type is never valid.
   */
  predicate ChildIsValid(e: Entry)
    ensures ChildIsValid(e) ==> !e.OtherEntry?
    ensures ChildIsValid(e) && e.ButtonEntry? && e.popover.Popover? ==>
      forall i :: 0 <= i < |e.popover.children| ==> ChildIsValid(e.popover.children[i])
    ensures e.ButtonEntry? && e.popover == Popover([]) ==> ChildIsValid(e)
    ensures e.TextEntry? && e.textContent == Some("") ==> ChildIsValid(e)
    decreases e
  {
    match e
    case ButtonEntry(_, buttonHref, _, _, onclick, popover, _) =>
      (onclick.Some? || popover.Popover? || buttonHref.Some?) &&
      (popover.Popover? && |popover.children| > 0 ==>
        forall i :: 0 <= i < |popover.children| ==> ChildIsValid(popover.children[i]))
    case TextEntry(_, _, _, _, _, dlContent, tableContent, textContent) =>
      dlContent.Some? || tableContent.Some? || textContent.Some?
    case OtherEntry(_) => false
  }

  /** The entries of `s` for which `ChildIsValid` holds, in their original order (`validButtons`). */
  function ValidEntries(s: seq<Entry>): (r: seq<Entry>)
    ensures |r| <= |s|
    ensures forall x :: x in r ==> x in s && ChildIsValid(x)
  {
    if s == [] then []
    else
      var init := ValidEntries(s[..|s| - 1]);
      assert forall x :: x in init ==> x in s;
      init + (if ChildIsValid(s[|s| - 1]) then [s[|s| - 1]] else [])
  }

  /** Filtering distributes over concatenation: relative order is kept and nothing moves across. */
  lemma {:induction false} ValidEntriesAppend(a: seq<Entry>, b: seq<Entry>)
    ensures ValidEntries(a + b) == ValidEntries(a) + ValidEntries(b)
    decreases |b|
  {
    if b == [] {
      assert a + b == a;
    } else {
      var b' := b[..|b| - 1];
      assert (a + b)[..|a + b| - 1] == a + b';
      ValidEntriesAppend(a, b');
    }
  }

  /** Every valid entry of the input survives. */
  lemma {:induction false} ValidEntriesComplete(s: seq<Entry>, i: nat)
    requires i < |s| && ChildIsValid(s[i])
    ensures s[i] in ValidEntries(s)
  {
    if i < |s| - 1 {
      ValidEntriesComplete(s[..|s| - 1], i);
    }
  }

  /** The kept list is empty iff no entry of the input is valid. */
  lemma {:induction false} ValidEntriesEmpty(s: seq<Entry>)
    ensures ValidEntries(s) == [] <==> forall i :: 0 <= i < |s| ==> !ChildIsValid(s[i])
  {
    if s != [] {
      ValidEntriesEmpty(s[..|s| - 1]);
      if exists i :: 0 <= i < |s| && ChildIsValid(s[i]) {
        var i :| 0 <= i < |s| && ChildIsValid(s[i]);
        ValidEntriesComplete(s, i);
      }
    }
  }

  /** A list whose entries are all valid is kept whole. */
  lemma {:induction false} ValidEntriesOfValid(s: seq<Entry>)
    requires forall i :: 0 <= i < |s| ==> ChildIsValid(s[i])
    ensures ValidEntries(s) == s
  {
    if s != [] {
      var init := s[..|s| - 1];
      forall i | 0 <= i < |init| ensures ChildIsValid(init[i]) {
        assert init[i] == s[i];
      }
      ValidEntriesOfValid(init);
      assert s[..|s| - 1] == init;
      assert ChildIsValid(s[|s| - 1]);
      assert s == init + [s[|s| - 1]];
    }
  }

  /** The environment block survives formatting only when enabled, and only `enable` and `label` are copied. */
  function FormatEnvironment(env: Option<EnvironmentData>): Option<EnvironmentData>
  {
    if env.Some? && env.value.enable then Some(EnvironmentData(env.value.enable, env.value.labelText, None))
    else None
  }

  /** The greeting block survives formatting only when enabled. */
  function FormatGreeting(greeting: Option<GreetingData>): Option<GreetingData>
  {
    if greeting.Some? && greeting.value.enable then greeting else None
  }

  /** The logout block survives formatting only when enabled. */
  function FormatLogout(logout: Option<LogoutData>): Option<LogoutData>
  {
    if logout.Some? && logout.value.enable then logout else None
  }

  /**
   * The data `_formatAdminBarData` stores: nothing at all unless some
   * top-level entry is valid, whatever the optional blocks say.
   */
  function FormatData(data: AdminBarData): (r: Option<AdminBarData>)
    ensures r.Some? ==> |r.value.buttons| > 0
    ensures r.Some? ==> forall i :: 0 <= i < |r.value.buttons| ==> ChildIsValid(r.value.buttons[i])
    ensures r.Some? && r.value.environment.Some? ==> r.value.environment.value.badge.None?
  {
    var valid := ValidEntries(data.buttons);
    assert forall i :: 0 <= i < |valid| ==> valid[i] in valid;
    if |valid| == 0 then None
    else Some(AdminBarData(valid, FormatEnvironment(data.environment),
                           FormatGreeting(data.greeting), FormatLogout(data.logout)))
  }

  /**
   * Formatted data exists iff some top-level entry is valid; it then holds
   * exactly the valid entries, every one of them valid, an environment block
   * without a badge, and the optional blocks only when enabled.
   */
  lemma FormatDataShape(data: AdminBarData)
    ensures FormatData(data).Some? <==>
            exists i :: 0 <= i < |data.buttons| && ChildIsValid(data.buttons[i])
    ensures FormatData(data).Some? ==>
            var f := FormatData(data).value;
            && f.buttons == ValidEntries(data.buttons)
            && |f.buttons| > 0
            && (forall i :: 0 <= i < |f.buttons| ==> ChildIsValid(f.buttons[i]))
            && (f.environment.Some? <==> data.environment.Some? && data.environment.value.enable)
            && (f.environment.Some? ==> f.environment.value.badge.None?)
            && (f.greeting.Some? <==> data.greeting.Some? && data.greeting.value.enable)
            && (f.logout.Some? <==> data.logout.Some? && data.logout.value.enable)
  {
    ValidEntriesEmpty(data.buttons);
    if FormatData(data).Some? {
      var f := FormatData(data).value;
      forall i | 0 <= i < |f.buttons| ensures ChildIsValid(f.buttons[i]) {
        assert f.buttons[i] in f.buttons;
      }
    }
  }

  /** Formatting already-formatted data changes nothing. */
  lemma FormatDataIdempotent(data: AdminBarData)
    requires FormatData(data).Some?
    ensures FormatData(FormatData(data).value) == FormatData(data)
  {
    FormatDataShape(data);
    ValidEntriesOfValid(FormatData(data).value.buttons);
  }
}
