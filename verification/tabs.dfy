/** `selectTab`: select the first tab whose title matches a name, ignoring case. */
module Tabs {
  import opened Wrappers
  import opened JavaStrings

  /** The index of the first title equal to `name` ignoring case, if any. */
  function FirstMatch(titles: seq<string>, name: string): (r: Option<nat>)
    ensures r.Some? ==> r.value < |titles| && EqualsIgnoreCase(titles[r.value], name)
    ensures r.Some? ==> forall j :: 0 <= j < r.value ==> !EqualsIgnoreCase(titles[j], name)
    ensures r.None? ==> forall j :: 0 <= j < |titles| ==> !EqualsIgnoreCase(titles[j], name)
  {
    if |titles| == 0 then None
    else if EqualsIgnoreCase(titles[0], name) then Some(0)
    else match FirstMatch(titles[1..], name)
      case None => None
      case Some(i) => Some(i + 1)
  }

  /**
   * The selected tab after `selectTab(name)`: a null name or a name no
   * title matches leaves the selection where it was.
   */
  method SelectTab(titles: seq<string>, current: nat, name: Option<string>) returns (selected: nat)
    ensures name.None? ==> selected == current
    ensures name.Some? ==> selected == FirstMatch(titles, name.value).GetOr(current)
  {
    selected := current;
    if name.None? {
      return;
    }
    var i := 0;
    while i < |titles|
      invariant 0 <= i <= |titles|
      invariant forall j :: 0 <= j < i ==> !EqualsIgnoreCase(titles[j], name.value)
    {
      if EqualsIgnoreCase(titles[i], name.value) {
        selected := i;
        FirstMatchIsFirst(titles, name.value, i);
        return;
      }
      i := i + 1;
    }
    FirstMatchNone(titles, name.value);
  }

  /** A title that matches, with none matching before it, is the first match. */
  lemma {:induction false} FirstMatchIsFirst(titles: seq<string>, name: string, i: nat)
    requires i < |titles| && EqualsIgnoreCase(titles[i], name)
    requires forall j :: 0 <= j < i ==> !EqualsIgnoreCase(titles[j], name)
    ensures FirstMatch(titles, name) == Some(i)
  {
    if i > 0 {
      FirstMatchIsFirst(titles[1..], name, i - 1);
    }
  }

  /** With no title matching there is no first match. */
  lemma {:induction false} FirstMatchNone(titles: seq<string>, name: string)
    requires forall j :: 0 <= j < |titles| ==> !EqualsIgnoreCase(titles[j], name)
    ensures FirstMatch(titles, name) == None
  {
    if |titles| > 0 {
      FirstMatchNone(titles[1..], name);
    }
  }

  /** Names that differ only in case select the same tab. */
  lemma FirstMatchIgnoresCase(titles: seq<string>, a: string, b: string)
    requires EqualsIgnoreCase(a, b)
    ensures FirstMatch(titles, a) == FirstMatch(titles, b)
  {
    assert forall t :: EqualsIgnoreCase(t, a) <==> EqualsIgnoreCase(t, b);
    var ra := FirstMatch(titles, a);
    var rb := FirstMatch(titles, b);
    if ra.Some? {
      FirstMatchIsFirst(titles, b, ra.value);
    } else {
      FirstMatchNone(titles, b);
    }
  }
}
