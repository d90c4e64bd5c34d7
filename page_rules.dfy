/** The rules that pick which element of the conferencing page to click, or decide
    that the step failed. Elements are abstract records in document order; clicking
    is not modelled, only which element would be clicked. */
module PageRules {
  import opened Outcome
  import opened Text

  /** Error messages thrown by the steps. The microphone selector, the desired option
      and the close button all report the same text. */
  const MoreActionsNotFound: string := "\"More actions\" button not found"
  const SettingsNotFound: string := "\"Settings\" button not found"
  const MicSelectorNotFound: string := "Mic selector not found"
  const DesiredMicNotSelected: string := "Desired mic not selected"

  /** Window widths below this count as a small screen. */
  const NarrowWidth: int := 600

  /** An element carrying a `data-device-id` attribute. */
  datatype DeviceOption = DeviceOption(isListItem: bool, deviceId: string, innerText: string)

  /** `Array.prototype.find` / `querySelector`: the index of the first element that
      satisfies `p`, if any. */
  function FirstIndex<T>(s: seq<T>, p: T -> bool): (r: Option<nat>)
    ensures r.Some? ==> r.value < |s| && p(s[r.value]) && forall j :: 0 <= j < r.value ==> !p(s[j])
    ensures r.None? ==> forall j :: 0 <= j < |s| ==> !p(s[j])
    decreases |s|
  {
    if s == [] then None
    else if p(s[0]) then Some(0)
    else match FirstIndex(s[1..], p)
      case None => None
      case Some(k) => Some(k + 1)
  }

  /** `Array.prototype.at(k)` on an array of `length` elements: a negative `k` counts
      from the end; out of range gives `undefined`. */
  function At(length: nat, k: int): (r: Option<nat>)
    ensures r.Some? <==> -(length as int) <= k < length
    ensures r.Some? ==> r.value < length && r.value as int == (if k < 0 then length + k else k)
  {
    var i := if k < 0 then length + k else k;
    if 0 <= i < length then Some(i) else None
  }

  /** `clickMoreOptionsButton`: among `buttonCount` "More options" buttons, click the
      second-to-last on a narrow window during a call (the last one then holds chat and
      participants), otherwise the last; fail when that button does not exist. */
  function ClickMoreOptionsButton(buttonCount: nat, innerWidth: int, leaveCallPresent: bool): (r: Attempt<nat, string>)
    ensures innerWidth < NarrowWidth && leaveCallPresent ==>
      if buttonCount >= 2 then r == Returned(buttonCount - 2) else r == Threw(MoreActionsNotFound)
    ensures !(innerWidth < NarrowWidth && leaveCallPresent) ==>
      if buttonCount >= 1 then r == Returned(buttonCount - 1) else r == Threw(MoreActionsNotFound)
  {
    var picked := if innerWidth < NarrowWidth && leaveCallPresent then At(buttonCount, -2) else At(buttonCount, -1);
    match picked
    case None => Threw(MoreActionsNotFound)
    case Some(i) => Returned(i)
  }

  /** `clickSettingsButton`: click the first entry of the call-options menu whose text
      contains "Settings". */
  function ClickSettingsButton(menuItems: seq<string>): (r: Attempt<nat, string>)
    ensures r.Returned? ==>
      (r.value < |menuItems| && Includes(menuItems[r.value], "Settings")
       && forall j :: 0 <= j < r.value ==> !Includes(menuItems[j], "Settings"))
    ensures r.Threw? <==> forall j :: 0 <= j < |menuItems| ==> !Includes(menuItems[j], "Settings")
    ensures r.Threw? ==> r.error == SettingsNotFound
  {
    match FirstIndex(menuItems, t => Includes(t, "Settings"))
    case None => Threw(SettingsNotFound)
    case Some(i) => Returned(i)
  }

  /** `clickMicrophoneSelector`: click the element whose aria-label mentions
      "Microphone" (its inner text is `micSelector`), failing when there is none. */
  function ClickMicrophoneSelector(micSelector: Option<string>): (r: Attempt<(), string>)
    ensures r.Returned? <==> micSelector.Some?
    ensures r.Threw? ==> r.error == MicSelectorNotFound
  {
    if micSelector.Some? then Returned(()) else Threw(MicSelectorNotFound)
  }

  predicate HasId(o: DeviceOption, micId: string) {
    o.isListItem && o.deviceId == micId
  }

  predicate ShowsName(o: DeviceOption, micName: string) {
    Includes(o.innerText, micName)
  }

  /** `clickDesiredMic`: with a (truthy) `micId`, the first list item whose device id is
      `micId`; failing that, the first option whose text contains `micName`; failing
      that, an error. */
  function ClickDesiredMic(options: seq<DeviceOption>, micName: string, micId: Option<string>): (r: Attempt<nat, string>)
    ensures r.Returned? ==> r.value < |options|
    ensures Truthy(micId) && (exists j :: 0 <= j < |options| && HasId(options[j], micId.value)) ==>
      r.Returned? && HasId(options[r.value], micId.value)
      && forall j :: 0 <= j < r.value ==> !HasId(options[j], micId.value)
    ensures !(Truthy(micId) && (exists j :: 0 <= j < |options| && HasId(options[j], micId.value))) ==>
      if exists j :: 0 <= j < |options| && ShowsName(options[j], micName) then
        r.Returned? && ShowsName(options[r.value], micName)
        && forall j :: 0 <= j < r.value ==> !ShowsName(options[j], micName)
      else r == Threw(MicSelectorNotFound)
  {
    var byId := if Truthy(micId) then FirstIndex(options, o => HasId(o, micId.value)) else None;
    var picked := if byId.Some? then byId else FirstIndex(options, o => ShowsName(o, micName));
    match picked
    case None => Threw(MicSelectorNotFound)
    case Some(i) => Returned(i)
  }

  /** Without an id, which is how the script always calls it, the choice is the first
      option showing the name. */
  lemma NoIdPicksByName(options: seq<DeviceOption>, micName: string, i: nat)
    requires i < |options| && ShowsName(options[i], micName)
    requires forall j :: 0 <= j < i ==> !ShowsName(options[j], micName)
    ensures ClickDesiredMic(options, micName, None) == Returned(i)
  {
    assert ShowsName(options[i], micName);
  }

  /** `closeDialog`: click the "Close dialog" button, failing when there is none. */
  function CloseDialog(closeButtonPresent: bool): (r: Attempt<(), string>)
    ensures r.Returned? <==> closeButtonPresent
    ensures r.Threw? ==> r.error == MicSelectorNotFound
  {
    if closeButtonPresent then Returned(()) else Threw(MicSelectorNotFound)
  }

  /** `checkIfDesiredMicSelected`: the microphone selector exists and its text contains
      the desired name somewhere. */
  function CheckIfDesiredMicSelected(micSelector: Option<string>, micName: string): (r: Attempt<(), string>)
    ensures r.Returned? <==> micSelector.Some? && exists i: nat :: OccursAt(micSelector.value, micName, i)
    ensures r.Threw? ==> r.error == DesiredMicNotSelected
  {
    match micSelector
    case None => Threw(DesiredMicNotSelected)
    case Some(text) =>
      IncludesIff(text, micName);
      if Includes(text, micName) then Returned(()) else Threw(DesiredMicNotSelected)
  }
}
