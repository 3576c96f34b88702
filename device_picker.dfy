/**
 * The list logic of the settings window's device picker: which enumerated
 * HID devices are listed, which row is highlighted as the configured
 * keyboard, whether a selection may be saved, and the identifiers it writes
 * and reads back. Widgets are reduced to what the logic reads and writes:
 * the list box's rows and its current selection.
 */
module DevicePicker {
  import opened Wrappers
  import opened Hid
  import Hex
  import Identity

  const StandardKeyboardPage: nat := 0x01
  const KeyboardUsage: nat := 0x06
  const VendorUsagePage: nat := 0xFF01
  const Placeholder: string := "No keyboard devices found"
  const DefaultId: string := "0x0000"

  // ---------------------------------------------------------------------
  // The keyboard filter
  // ---------------------------------------------------------------------

  function LowerChar(c: char): (l: char) {
    if 'A' <= c <= 'Z' then (c as int + 32) as char else c
  }

  /** `str.lower()` on ASCII letters: no upper-case letter is left, and only upper-case letters change. */
  function Lower(s: string): (r: string)
    ensures |r| == |s|
    ensures forall i :: 0 <= i < |r| ==> !('A' <= r[i] <= 'Z')
    ensures forall i :: 0 <= i < |r| && r[i] != s[i] ==> 'A' <= s[i] <= 'Z' && r[i] as int == s[i] as int + 32
  {
    seq(|s|, i requires 0 <= i < |s| => LowerChar(s[i]))
  }

  predicate OccursAt(text: string, pattern: string, i: int) {
    0 <= i && i + |pattern| <= |text| && text[i..i + |pattern|] == pattern
  }

  /** `pattern in text` at or after position `from`. */
  function ContainsFrom(text: string, pattern: string, from: nat): (b: bool)
    ensures b <==> exists i :: from <= i && OccursAt(text, pattern, i)
    decreases |text| - from
  {
    if from + |pattern| > |text| then false
    else if text[from..from + |pattern|] == pattern then assert OccursAt(text, pattern, from); true
    else ContainsFrom(text, pattern, from + 1)
  }

  /**
   * The window's keyboard test: the standard keyboard usage, or the
   * vendor-specific page with "keyboard" in the lower-cased product name.
   */
  predicate IsKeyboard(d: HidDevice)
    ensures IsKeyboard(d) <==>
              (d.usagePage == 0x01 && d.usage == 0x06)
              || (d.usagePage == 0xFF01 && exists i :: OccursAt(Lower(d.product), "keyboard", i))
  {
    (d.usagePage == StandardKeyboardPage && d.usage == KeyboardUsage)
    || (d.usagePage == VendorUsagePage && ContainsFrom(Lower(d.product), "keyboard", 0))
  }

  /** Entry i is listed: a keyboard whose identity no earlier keyboard has. */
  predicate IsFirstKeyboard(xs: seq<HidDevice>, i: int)
    requires 0 <= i < |xs|
  {
    IsKeyboard(xs[i]) && forall j :: 0 <= j < i ==> !(IsKeyboard(xs[j]) && Key(xs[j]) == Key(xs[i]))
  }

  /** The positions below n of listed entries, in increasing order: exactly the first keyboards. */
  function FirstIndices(xs: seq<HidDevice>, n: nat): (r: seq<nat>)
    requires n <= |xs|
    ensures forall k :: 0 <= k < |r| ==> r[k] < n && IsFirstKeyboard(xs, r[k])
    ensures forall k, l :: 0 <= k < l < |r| ==> r[k] < r[l]
    ensures forall i :: 0 <= i < n && IsFirstKeyboard(xs, i) ==> i in r
  {
    if n == 0 then []
    else FirstIndices(xs, n - 1) + if IsFirstKeyboard(xs, n - 1) then [n - 1] else []
  }

  function Pick(xs: seq<HidDevice>, indices: seq<nat>): (r: seq<HidDevice>)
    requires forall k :: 0 <= k < |indices| ==> indices[k] < |xs|
    ensures |r| == |indices| && forall k :: 0 <= k < |r| ==> r[k] == xs[indices[k]]
  {
    seq(|indices|, k requires 0 <= k < |indices| => xs[indices[k]])
  }

  /** The `devices` list the window builds from one enumeration. */
  function KeyboardList(xs: seq<HidDevice>): (r: seq<HidDevice>)
    ensures forall k :: 0 <= k < |r| ==> IsKeyboard(r[k]) && r[k] in xs
  {
    Pick(xs, FirstIndices(xs, |xs|))
  }

  /** Listing one more entry appends it to the list when it is a first keyboard. */
  lemma ListStep(xs: seq<HidDevice>, i: nat)
    requires i < |xs|
    ensures Pick(xs, FirstIndices(xs, i + 1))
            == Pick(xs, FirstIndices(xs, i)) + if IsFirstKeyboard(xs, i) then [xs[i]] else []
  {
    var before := FirstIndices(xs, i);
    if IsFirstKeyboard(xs, i) {
      assert FirstIndices(xs, i + 1) == before + [i];
    } else {
      assert FirstIndices(xs, i + 1) == before;
    }
  }

  /** The identities of the keyboards among the first n entries: the window's `seen_devices`. */
  function KeysBefore(xs: seq<HidDevice>, n: nat): (keys: set<(nat, nat)>)
    requires n <= |xs|
  {
    set j | 0 <= j < n && IsKeyboard(xs[j]) :: Key(xs[j])
  }

  /** Entry i is listed exactly when it is a keyboard whose identity has not been seen. */
  lemma SeenStep(xs: seq<HidDevice>, i: nat)
    requires i < |xs|
    ensures IsFirstKeyboard(xs, i) <==> IsKeyboard(xs[i]) && Key(xs[i]) !in KeysBefore(xs, i)
    ensures KeysBefore(xs, i + 1) == KeysBefore(xs, i) + if IsKeyboard(xs[i]) then {Key(xs[i])} else {}
  {
    if IsKeyboard(xs[i]) && Key(xs[i]) in KeysBefore(xs, i) {
      var j :| 0 <= j < i && IsKeyboard(xs[j]) && Key(xs[j]) == Key(xs[i]);
    }
  }

  /** The list never holds two entries with the same (vendor, product). */
  lemma KeyboardListNoDuplicates(xs: seq<HidDevice>)
    ensures var r := KeyboardList(xs);
            forall a, b :: 0 <= a < b < |r| ==> Key(r[a]) != Key(r[b])
  {
    var idx := FirstIndices(xs, |xs|);
    var r := KeyboardList(xs);
    forall a, b | 0 <= a < b < |r| ensures Key(r[a]) != Key(r[b]) {
      assert idx[a] < idx[b];
      assert IsFirstKeyboard(xs, idx[b]);
      assert IsKeyboard(xs[idx[a]]);
    }
  }

  /** The earliest keyboard with the identity of keyboard i is a listed entry. */
  lemma {:induction false} EarliestSameKey(xs: seq<HidDevice>, i: nat) returns (j: nat)
    requires i < |xs| && IsKeyboard(xs[i])
    ensures j <= i && IsFirstKeyboard(xs, j) && Key(xs[j]) == Key(xs[i])
    decreases i
  {
    if IsFirstKeyboard(xs, i) {
      j := i;
    } else {
      var earlier :| 0 <= earlier < i && IsKeyboard(xs[earlier]) && Key(xs[earlier]) == Key(xs[i]);
      j := EarliestSameKey(xs, earlier);
    }
  }

  /** Every enumerated keyboard's identity is listed, by the entry that appeared first. */
  lemma KeyboardListCovers(xs: seq<HidDevice>, i: nat)
    requires i < |xs| && IsKeyboard(xs[i])
    ensures var r := KeyboardList(xs);
            exists k :: 0 <= k < |r| && Key(r[k]) == Key(xs[i])
  {
    var j := EarliestSameKey(xs, i);
    var idx := FirstIndices(xs, |xs|);
    assert j in idx;
    var k :| 0 <= k < |idx| && idx[k] == j;
    assert KeyboardList(xs)[k] == xs[j];
  }

  // ---------------------------------------------------------------------
  // Rows, highlighting, saving and loading
  // ---------------------------------------------------------------------

  /** The list-box row shown for a device. */
  function DisplayRow(d: HidDevice): (row: string) {
    "VID: " + Hex.FormatHex(d.vendorId) + " | PID: " + Hex.FormatHex(d.productId)
    + " | " + d.manufacturer + " - " + d.product
  }

  /** One row per device, in the order of the list. */
  function DisplayRows(ds: seq<HidDevice>): (rows: seq<string>)
    ensures |rows| == |ds|
  {
    seq(|ds|, k requires 0 <= k < |ds| => DisplayRow(ds[k]))
  }

  lemma DisplayRowsAppend(ds: seq<HidDevice>, d: HidDevice)
    ensures DisplayRows(ds + [d]) == DisplayRows(ds) + [DisplayRow(d)]
  {
  }

  /**
   * With 16-bit identifiers the row has fixed columns: the vendor identifier
   * at characters 5 to 10 and the product identifier at 19 to 24.
   */
  lemma DisplayRowColumns(d: HidDevice)
    requires d.vendorId < 0x1_0000 && d.productId < 0x1_0000
    ensures var r := DisplayRow(d);
            |r| >= 25 && r[..5] == "VID: " && r[5..11] == Hex.FormatHex(d.vendorId)
            && r[11..19] == " | PID: " && r[19..25] == Hex.FormatHex(d.productId)
  {
    Hex.SixteenBitWidth(d.vendorId);
    Hex.SixteenBitWidth(d.productId);
  }

  /** Two devices with 16-bit identifiers and the same row have the same (vendor, product). */
  lemma DisplayRowIdentifies(a: HidDevice, b: HidDevice)
    requires a.vendorId < 0x1_0000 && a.productId < 0x1_0000
    requires b.vendorId < 0x1_0000 && b.productId < 0x1_0000
    requires DisplayRow(a) == DisplayRow(b)
    ensures Key(a) == Key(b)
  {
    DisplayRowColumns(a);
    DisplayRowColumns(b);
    Hex.FormatHexInjective(a.vendorId, b.vendorId);
    Hex.FormatHexInjective(a.productId, b.productId);
  }

  /** The rows of the listed devices are pairwise distinct when the identifiers are 16-bit. */
  lemma ListedRowsDistinct(xs: seq<HidDevice>)
    requires forall d :: d in xs ==> d.vendorId < 0x1_0000 && d.productId < 0x1_0000
    ensures var rows := DisplayRows(KeyboardList(xs));
            forall a, b :: 0 <= a < b < |rows| ==> rows[a] != rows[b]
  {
    var r := KeyboardList(xs);
    var rows := DisplayRows(r);
    KeyboardListNoDuplicates(xs);
    forall a, b | 0 <= a < b < |rows| ensures rows[a] != rows[b] {
      if rows[a] == rows[b] {
        DisplayRowIdentifies(r[a], r[b]);
      }
    }
  }

  /** The device is the configured one; an unset identifier matches nothing. */
  predicate IsConfigured(d: HidDevice, vendorId: Option<nat>, productId: Option<nat>)
    ensures vendorId.None? || productId.None? ==> !IsConfigured(d, vendorId, productId)
    ensures vendorId.Some? && productId.Some?
            ==> (IsConfigured(d, vendorId, productId) <==> Key(d) == (vendorId.value, productId.value))
  {
    vendorId.Some? && productId.Some? && d.vendorId == vendorId.value && d.productId == productId.value
  }

  predicate IsFirstConfigured(devices: seq<HidDevice>, vendorId: Option<nat>, productId: Option<nat>, i: int) {
    0 <= i < |devices| && IsConfigured(devices[i], vendorId, productId)
    && forall j :: 0 <= j < i ==> !IsConfigured(devices[j], vendorId, productId)
  }

  /** The search of `highlight_current_device`: the first listed device with the configured identity. */
  method FindConfiguredDevice(devices: seq<HidDevice>, vendorId: Option<nat>, productId: Option<nat>)
    returns (index: Option<nat>)
    ensures index.Some? ==> IsFirstConfigured(devices, vendorId, productId, index.value)
    ensures index.None? ==> forall i :: 0 <= i < |devices| ==> !IsConfigured(devices[i], vendorId, productId)
  {
    if vendorId.None? || productId.None? {
      return None;
    }
    index := None;
    var i := 0;
    while i < |devices|
      invariant 0 <= i <= |devices|
      invariant forall j :: 0 <= j < i ==> !IsConfigured(devices[j], vendorId, productId)
    {
      var d := devices[i];
      if d.vendorId == vendorId.value && d.productId == productId.value {
        index := Some(i);
        break;
      }
      i := i + 1;
    }
  }

  /** The selection after highlighting: the first configured row, or the selection as it was. */
  predicate HighlightedFrom(devices: seq<HidDevice>, vendorId: Option<nat>, productId: Option<nat>,
                            before: seq<nat>, after: seq<nat>)
  {
    (exists i :: 0 <= i < |devices| && IsFirstConfigured(devices, vendorId, productId, i) && after == [i])
    || ((forall i :: 0 <= i < |devices| ==> !IsConfigured(devices[i], vendorId, productId)) && after == before)
  }

  /** How a press of the Save button ends. */
  datatype SaveOutcome =
    | NoSelection       // warning, nothing written
    | InvalidSelection  // error, nothing written
    | Cancelled         // the user declined the confirmation
    | WriteFailed       // writing the file raised
    | Saved(settings: map<string, string>)

  /**
   * `save_settings` over the list's `devices` and the list box's current
   * selection; `confirm` is the user's answer, `writeOk` whether writing the
   * file succeeded.
   */
  function SaveSettings(devices: seq<HidDevice>, selection: seq<nat>, confirm: bool, writeOk: bool): (r: SaveOutcome)
    ensures r.NoSelection? <==> selection == []
    ensures r.InvalidSelection? <==> selection != [] && selection[0] >= |devices|
    ensures r.Saved? || r.WriteFailed? ==> selection != [] && selection[0] < |devices| && confirm
    ensures r.Saved? ==> writeOk && r.settings.Keys == {"VENDOR_ID", "PRODUCT_ID"}
    ensures r.Saved? ==> r.settings["VENDOR_ID"] == Hex.FormatHex(devices[selection[0]].vendorId)
                         && r.settings["PRODUCT_ID"] == Hex.FormatHex(devices[selection[0]].productId)
    ensures selection != [] && selection[0] < |devices|
            ==> (r.Cancelled? <==> !confirm) && (confirm ==> (r.Saved? <==> writeOk))
  {
    if selection == [] then NoSelection
    else
      var selectedIndex := selection[0];
      if selectedIndex >= |devices| then InvalidSelection
      else
        var device := devices[selectedIndex];
        if !confirm then Cancelled
        else if !writeOk then WriteFailed
        else Saved(map["VENDOR_ID" := Hex.FormatHex(device.vendorId),
                       "PRODUCT_ID" := Hex.FormatHex(device.productId)])
  }

  /** With no keyboard listed, even the placeholder row cannot be saved: nothing is written. */
  lemma PlaceholderNotSaved(selection: seq<nat>, confirm: bool, writeOk: bool)
    ensures var r := SaveSettings([], selection, confirm, writeOk);
            r.NoSelection? || r.InvalidSelection?
  {
  }

  /** `int(settings.get(key, "0x0000"), 16)`: a missing identifier reads as 0. */
  function ReadSettingId(settings: map<string, string>, key: string): (r: Option<nat>)
    ensures key !in settings ==> r == Some(0)
    ensures key in settings ==> r == Hex.ParseHex(settings[key])
  {
    DefaultIdIsZero();
    Hex.ParseHex(if key in settings then settings[key] else DefaultId)
  }

  lemma DefaultIdIsZero()
    ensures Hex.ParseHex(DefaultId) == Some(0)
  {
    assert "0000"[..3] == "000" && "000"[..2] == "00" && "00"[..1] == "0" && "0"[..0] == "";
    assert Hex.HexValue("0000") == 0;
    assert DefaultId == "0x" + "0000";
    Hex.PrefixedValue("0000");
  }

  /**
   * What the window saves, both the window and the service read back as the
   * identity of the selected device.
   */
  lemma SaveThenLoad(devices: seq<HidDevice>, selection: seq<nat>, confirm: bool, writeOk: bool)
    requires SaveSettings(devices, selection, confirm, writeOk).Saved?
    ensures var settings := SaveSettings(devices, selection, confirm, writeOk).settings;
            var d := devices[selection[0]];
            && ReadSettingId(settings, "VENDOR_ID") == Some(d.vendorId)
            && ReadSettingId(settings, "PRODUCT_ID") == Some(d.productId)
            && Identity.LoadIds(settings) == Success((d.vendorId, d.productId))
  {
    var d := devices[selection[0]];
    Hex.FormatParseRoundTrip(d.vendorId);
    Hex.FormatParseRoundTrip(d.productId);
  }

  /** The window's state that its list logic reads and writes. */
  class SettingsWindow {
    var devices: seq<HidDevice>
    var rows: seq<string>
    var selection: seq<nat>
    var currentVid: Option<nat>
    var currentPid: Option<nat>

    /**
     * `__init__`: an empty list, no configured identity, then the settings
     * are loaded and the devices listed.
     */
    constructor (settings: Option<map<string, string>>, enumeration: Option<seq<HidDevice>>)
      ensures settings.None? ==> currentVid.None? && currentPid.None?
      ensures settings.Some? ==>
        var v := ReadSettingId(settings.value, "VENDOR_ID");
        var p := ReadSettingId(settings.value, "PRODUCT_ID");
        && currentVid == v
        && currentPid == (if v.Some? then p else None)
      ensures enumeration.None? ==> devices == [] && rows == [] && selection == []
      ensures enumeration.Some? ==> devices == KeyboardList(enumeration.value)
      ensures enumeration.Some? ==> rows == if devices == [] then [Placeholder] else DisplayRows(devices)
      ensures devices == [] ==> selection == []
      ensures devices != [] ==> HighlightedFrom(devices, currentVid, currentPid, [], selection)
    {
      devices := [];
      rows := [];
      selection := [];
      currentVid := None;
      currentPid := None;
      new;
      LoadCurrentSettings(settings);
      LoadDevices(enumeration);
    }

    /**
     * `load_current_settings`: `settings` is the decoded file, None when it
     * could not be read. The vendor identifier is stored before the product
     * identifier is parsed, so a bad product identifier leaves only it unset.
     */
    method LoadCurrentSettings(settings: Option<map<string, string>>)
      modifies this`currentVid, this`currentPid
      ensures settings.None? ==> currentVid == old(currentVid) && currentPid == old(currentPid)
      ensures settings.Some? ==>
        var v := ReadSettingId(settings.value, "VENDOR_ID");
        var p := ReadSettingId(settings.value, "PRODUCT_ID");
        && currentVid == (if v.Some? then v else old(currentVid))
        && currentPid == (if v.Some? && p.Some? then p else old(currentPid))
    {
      if settings.None? {
        return;
      }
      var vendorId := ReadSettingId(settings.value, "VENDOR_ID");
      if vendorId.None? {
        return;
      }
      currentVid := vendorId;
      var productId := ReadSettingId(settings.value, "PRODUCT_ID");
      if productId.None? {
        return;
      }
      currentPid := productId;
    }

    /** `highlight_current_device`: select the first row of the configured device, if any. */
    method HighlightCurrentDevice()
      modifies this`selection
      ensures HighlightedFrom(devices, currentVid, currentPid, old(selection), selection)
    {
      var index := FindConfiguredDevice(devices, currentVid, currentPid);
      if index.Some? {
        selection := [index.value];
      }
    }

    /**
     * `load_devices`: `enumeration` is the result of `hid.enumerate()`, None
     * when it raised. Keyboards are listed once per (vendor, product), first
     * occurrence first; an empty list shows the placeholder row, a non-empty
     * one highlights the configured device.
     */
    method LoadDevices(enumeration: Option<seq<HidDevice>>)
      modifies this`devices, this`rows, this`selection
      ensures enumeration.None? ==> devices == [] && rows == [] && selection == []
      ensures enumeration.Some? ==> devices == KeyboardList(enumeration.value)
      ensures enumeration.Some? ==> rows == if devices == [] then [Placeholder] else DisplayRows(devices)
      ensures devices == [] ==> selection == []
      ensures devices != [] ==> HighlightedFrom(devices, currentVid, currentPid, [], selection)
    {
      rows := [];
      selection := [];
      devices := [];
      if enumeration.None? {
        return;
      }
      var all := enumeration.value;
      var seen: set<(nat, nat)> := {};
      var i := 0;
      while i < |all|
        invariant 0 <= i <= |all|
        invariant devices == Pick(all, FirstIndices(all, i))
        invariant rows == DisplayRows(devices)
        invariant seen == KeysBefore(all, i)
        invariant selection == []
      {
        var device := all[i];
        var isKeyboard := IsKeyboard(device);
        ListStep(all, i);
        SeenStep(all, i);
        if isKeyboard && Key(device) !in seen {
          DisplayRowsAppend(devices, device);
          seen := seen + {Key(device)};
          rows := rows + [DisplayRow(device)];
          devices := devices + [device];
        }
        i := i + 1;
      }
      if devices == [] {
        rows := rows + [Placeholder];
      } else {
        HighlightCurrentDevice();
      }
    }
  }
}
