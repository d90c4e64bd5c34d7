/** What the content script does once, when the page loads. */
module Startup {
  import opened Outcome
  import opened Devices

  /** The persisted preference and device list, under the keys `selectedMicName`,
      `selectedMicId` and `mics`. */
  datatype Stored = Stored(selectedMicName: Option<string>, selectedMicId: Option<string>, mics: Option<seq<MicEntry>>)

  datatype StartupAction =
    | RefreshDeviceList
    | SelectMic(micName: Option<string>, micId: Option<string>)

  /** The script reads only `selectedMicName` and `mics`. With no stored list it
      refreshes the device list; with one (even an empty array, which is truthy) it
      selects the stored name, and the id it passes is always absent. */
  function Startup(stored: Stored): (r: StartupAction)
    ensures r.RefreshDeviceList? <==> stored.mics.None?
    ensures r.SelectMic? ==> r.micName == stored.selectedMicName && r.micId == None
  {
    var micName, mics := stored.selectedMicName, stored.mics;
    var micId: Option<string> := None;
    if mics.None? then RefreshDeviceList else SelectMic(micName, micId)
  }

  /** The device-change handler is installed only after the startup action settles.
      Refreshing the device list never throws, as it catches its own errors. A
      selection that throws rejects the startup function, so the handler is then
      never installed. `selection` is how the startup `setMic` settled. */
  function HandlerInstalled(stored: Stored, selection: Attempt<(), string>): (r: bool)
    ensures r <==> stored.mics.None? || selection.Returned?
  {
    match Startup(stored)
    case RefreshDeviceList => true
    case SelectMic(_, _) => !selection.Threw?
  }
}
