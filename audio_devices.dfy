/**
 * The audio source list of the overlay's setup panel (`LoadAudioInputOptions`
 * and `GetSelectedAudioDeviceId` in OverlayForm.cs): the default microphone,
 * then every active capture endpoint, then every active render endpoint for
 * loopback capture, each group ordered by friendly name ignoring case.
 * Enumerating the endpoints is I/O; the model receives the two endpoint lists,
 * or `None` where the enumeration threw.
 */
module AudioDevices {
  import opened Wrappers
  import opened Text

  /** An active endpoint as the device enumerator reports it. */
  datatype Endpoint = Endpoint(friendlyName: string, id: string)

  /** One entry of the audio source combo box; no device id means the default microphone. */
  datatype AudioInputOption = AudioInputOption(displayName: string, deviceId: Option<string>)

  const DefaultInputName: string := "Entrada padrão (microfone)"
  const CaptureLabel: string := "Entrada: "
  const LoopbackLabel: string := "Saída (captura): "
  const CapturePrefix: string := "capture:"
  const LoopbackPrefix: string := "loopback:"

  // ---------------------------------------------------------------------
  // Ordering by friendly name (`OrderBy` with `StringComparer.OrdinalIgnoreCase`)
  // ---------------------------------------------------------------------

  /**
   * `StringComparer.OrdinalIgnoreCase.Compare(a, b) <= 0`, character by
   * character: the case-folded characters compared by where their UTF-16 code
   * units put them (`NameLeqIsOrdinal`), a proper prefix first.
   */
  predicate NameLeq(a: string, b: string)
    decreases |a|
  {
    a == [] ||
    (b != [] &&
     (OrdinalKey(FoldCase(a[0])) < OrdinalKey(FoldCase(b[0])) ||
      (FoldCase(a[0]) == FoldCase(b[0]) && NameLeq(a[1..], b[1..]))))
  }

  /** The name order is the ordinal order of the case-folded names' UTF-16 code units. */
  lemma {:induction false} NameLeqIsOrdinal(a: string, b: string)
    ensures NameLeq(a, b) <==> UnitsLeq(Utf16(FoldAll(a)), Utf16(FoldAll(b)))
    decreases |a|
  {
    var fa, fb := FoldAll(a), FoldAll(b);
    if a != [] && b != [] {
      assert fa[1..] == FoldAll(a[1..]) && fb[1..] == FoldAll(b[1..]);
      var c, d := FoldCase(a[0]), FoldCase(b[0]);
      assert Utf16(fa) == CodeUnits(c) + Utf16(FoldAll(a[1..]));
      assert Utf16(fb) == CodeUnits(d) + Utf16(FoldAll(b[1..]));
      OrdinalKeyInjective(c, d);
      if c == d {
        UnitsLeqCommonPrefix(CodeUnits(c), Utf16(FoldAll(a[1..])), Utf16(FoldAll(b[1..])));
        NameLeqIsOrdinal(a[1..], b[1..]);
      } else {
        CodeUnitsOrder(c, d, Utf16(FoldAll(a[1..])), Utf16(FoldAll(b[1..])));
      }
    } else if a != [] {
      assert Utf16(fa) == CodeUnits(fa[0]) + Utf16(fa[1..]);
    }
  }

  /**
   * A full-width letter (U+FF21) sorts after an emoji (U+1F600): the emoji's
   * high surrogate 0xD83D is the smaller code unit.
   */
  lemma FullwidthAfterEmoji()
    ensures NameLeq("\U{1F600}", "\U{FF21}") && !NameLeq("\U{FF21}", "\U{1F600}")
  {
  }

  lemma {:induction false} NameLeqTotal(a: string, b: string)
    ensures NameLeq(a, b) || NameLeq(b, a)
    decreases |a|
  {
    if a != [] && b != [] && FoldCase(a[0]) == FoldCase(b[0]) {
      NameLeqTotal(a[1..], b[1..]);
    }
  }

  lemma {:induction false} NameLeqTransitive(a: string, b: string, c: string)
    requires NameLeq(a, b) && NameLeq(b, c)
    ensures NameLeq(a, c)
    decreases |a|
  {
    if a != [] && FoldCase(a[0]) == FoldCase(b[0]) && FoldCase(b[0]) == FoldCase(c[0]) {
      NameLeqTransitive(a[1..], b[1..], c[1..]);
    }
  }

  /** Names equal ignoring case are ordered both ways. */
  lemma {:induction false} NameLeqOfEqualIgnoringCase(a: string, b: string)
    requires EqualsIgnoreCase(a, b)
    ensures NameLeq(a, b) && NameLeq(b, a)
    decreases |a|
  {
    if a != [] {
      assert EqualsIgnoreCase(a[1..], b[1..]) by {
        forall i | 0 <= i < |a[1..]| ensures FoldCase(a[1..][i]) == FoldCase(b[1..][i]) {
          assert a[1..][i] == a[i + 1] && b[1..][i] == b[i + 1];
        }
      }
      NameLeqOfEqualIgnoringCase(a[1..], b[1..]);
    }
  }

  predicate SortedByName(devices: seq<Endpoint>) {
    forall i, j :: 0 <= i < j < |devices| ==> NameLeq(devices[i].friendlyName, devices[j].friendlyName)
  }

  /**
   * `device` placed before the first endpoint whose name it does not follow:
   * the step of a stable insertion sort.
   */
  function InsertByName(device: Endpoint, sorted: seq<Endpoint>): (r: seq<Endpoint>)
    requires SortedByName(sorted)
    ensures SortedByName(r)
    ensures multiset(r) == multiset(sorted) + multiset{device}
    ensures r != [] && (r[0] == device || (sorted != [] && r[0] == sorted[0]))
  {
    if sorted == [] then [device]
    else if NameLeq(device.friendlyName, sorted[0].friendlyName) then
      InsertFrontSorted(device, sorted);
      [device] + sorted
    else
      var rest := InsertByName(device, sorted[1..]);
      InsertBehindSorted(device, sorted, rest);
      [sorted[0]] + rest
  }

  lemma {:induction false} InsertFrontSorted(device: Endpoint, sorted: seq<Endpoint>)
    requires SortedByName(sorted) && sorted != []
    requires NameLeq(device.friendlyName, sorted[0].friendlyName)
    ensures SortedByName([device] + sorted)
  {
    var r := [device] + sorted;
    forall i, j | 0 <= i < j < |r| ensures NameLeq(r[i].friendlyName, r[j].friendlyName) {
      if i == 0 && j > 1 {
        NameLeqTransitive(device.friendlyName, sorted[0].friendlyName, sorted[j - 1].friendlyName);
      }
    }
  }

  lemma {:induction false} InsertBehindSorted(device: Endpoint, sorted: seq<Endpoint>, rest: seq<Endpoint>)
    requires SortedByName(sorted) && sorted != []
    requires !NameLeq(device.friendlyName, sorted[0].friendlyName)
    requires SortedByName(rest) && multiset(rest) == multiset(sorted[1..]) + multiset{device}
    ensures SortedByName([sorted[0]] + rest)
    ensures multiset([sorted[0]] + rest) == multiset(sorted) + multiset{device}
  {
    var r := [sorted[0]] + rest;
    assert sorted == [sorted[0]] + sorted[1..];
    NameLeqTotal(device.friendlyName, sorted[0].friendlyName);
    forall j | 0 < j < |r| ensures NameLeq(sorted[0].friendlyName, r[j].friendlyName) {
      assert r[j] in multiset(rest);
      if r[j] != device {
        assert r[j] in multiset(sorted[1..]);
        var k :| 0 <= k < |sorted[1..]| && sorted[1..][k] == r[j];
        assert sorted[k + 1] == r[j];
      }
    }
  }

  /**
   * `OrderBy(device => device.FriendlyName, StringComparer.OrdinalIgnoreCase)`:
   * the endpoints sorted by name, endpoints with equally ordered names kept in
   * enumeration order.
   */
  function OrderByName(devices: seq<Endpoint>): (r: seq<Endpoint>)
    ensures SortedByName(r)
    ensures multiset(r) == multiset(devices)
  {
    if devices == [] then []
    else
      assert devices == [devices[0]] + devices[1..];
      InsertByName(devices[0], OrderByName(devices[1..]))
  }

  // ---------------------------------------------------------------------
  // The option list
  // ---------------------------------------------------------------------

  /** The entry for an endpoint: a capture device, or a render device recorded through loopback. */
  function DeviceOption(device: Endpoint, loopback: bool): AudioInputOption {
    if loopback then AudioInputOption(LoopbackLabel + device.friendlyName, Some(LoopbackPrefix + device.id))
    else AudioInputOption(CaptureLabel + device.friendlyName, Some(CapturePrefix + device.id))
  }

  /** The entries of a group of endpoints, in the group's order. */
  function DeviceOptions(devices: seq<Endpoint>, loopback: bool): (r: seq<AudioInputOption>)
    ensures |r| == |devices|
  {
    if devices == [] then []
    else DeviceOptions(devices[..|devices| - 1], loopback) + [DeviceOption(devices[|devices| - 1], loopback)]
  }

  lemma {:induction false} DeviceOptionsIndex(devices: seq<Endpoint>, loopback: bool)
    ensures forall i :: 0 <= i < |devices| ==> DeviceOptions(devices, loopback)[i] == DeviceOption(devices[i], loopback)
  {
    if devices != [] {
      DeviceOptionsIndex(devices[..|devices| - 1], loopback);
    }
  }

  lemma {:induction false} DeviceOptionsStep(devices: seq<Endpoint>, i: nat, loopback: bool)
    requires i < |devices|
    ensures DeviceOptions(devices[..i + 1], loopback) == DeviceOptions(devices[..i], loopback) + [DeviceOption(devices[i], loopback)]
  {
    assert devices[..i + 1][..i] == devices[..i];
  }

  /**
   * The endpoints whose entries follow the default one: the sorted capture
   * endpoints, then the sorted render endpoints. A failed enumeration ends the
   * list where it failed.
   */
  function EnumeratedEndpoints(capture: Option<seq<Endpoint>>, render: Option<seq<Endpoint>>)
    : (r: (seq<Endpoint>, seq<Endpoint>))
    ensures capture.None? ==> r.0 == [] && r.1 == []
    ensures capture.Some? ==> r.0 == OrderByName(capture.value)
    ensures r.1 != [] ==> capture.Some? && render.Some? && r.1 == OrderByName(render.value)
    ensures capture.Some? && render.Some? ==> r.1 == OrderByName(render.value)
    ensures capture.Some? && render.None? ==> r.1 == []
  {
    match capture
    case None => ([], [])
    case Some(c) =>
      match render
      case None => (OrderByName(c), [])
      case Some(d) => (OrderByName(c), OrderByName(d))
  }

  /** The whole list `LoadAudioInputOptions` builds. */
  function AudioInputOptions(capture: Option<seq<Endpoint>>, render: Option<seq<Endpoint>>): seq<AudioInputOption> {
    var devices := EnumeratedEndpoints(capture, render);
    [AudioInputOption(DefaultInputName, None)] + DeviceOptions(devices.0, false) + DeviceOptions(devices.1, true)
  }

  /**
   * The list's shape: the default microphone first, one capture entry per
   * capture endpoint and one loopback entry per render endpoint, each group in
   * name order.
   */
  lemma {:induction false} AudioInputOptionsShape(capture: Option<seq<Endpoint>>, render: Option<seq<Endpoint>>)
    ensures var options := AudioInputOptions(capture, render);
      var (c, d) := EnumeratedEndpoints(capture, render);
      && |options| == 1 + |c| + |d|
      && options[0] == AudioInputOption(DefaultInputName, None)
      && (forall i :: 0 <= i < |c| ==> options[1 + i] == DeviceOption(c[i], false))
      && (forall i :: 0 <= i < |d| ==> options[1 + |c| + i] == DeviceOption(d[i], true))
  {
    var (c, d) := EnumeratedEndpoints(capture, render);
    OptionsLayout(c, d);
  }

  /** `AudioInputOptionsShape` for given capture and render lists. */
  lemma {:induction false} OptionsLayout(c: seq<Endpoint>, d: seq<Endpoint>)
    ensures var options := [AudioInputOption(DefaultInputName, None)] + DeviceOptions(c, false) + DeviceOptions(d, true);
      && |options| == 1 + |c| + |d|
      && options[0] == AudioInputOption(DefaultInputName, None)
      && (forall i :: 0 <= i < |c| ==> options[1 + i] == DeviceOption(c[i], false))
      && (forall i :: 0 <= i < |d| ==> options[1 + |c| + i] == DeviceOption(d[i], true))
  {
    DeviceOptionsIndex(c, false);
    DeviceOptionsIndex(d, true);
  }

  /** With both enumerations successful every endpoint gets exactly one entry. */
  lemma {:induction false} AudioInputOptionsCount(capture: seq<Endpoint>, render: seq<Endpoint>)
    ensures |AudioInputOptions(Some(capture), Some(render))| == 1 + |capture| + |render|
  {
    var (c, d) := EnumeratedEndpoints(Some(capture), Some(render));
    assert |c| == |capture| by { assert |multiset(c)| == |multiset(capture)|; }
    assert |d| == |render| by { assert |multiset(d)| == |multiset(render)|; }
  }

  /** Only the first entry is the default microphone; every other one names a device. */
  lemma {:induction false} OnlyFirstOptionIsDefault(capture: Option<seq<Endpoint>>, render: Option<seq<Endpoint>>, k: nat)
    requires k < |AudioInputOptions(capture, render)|
    ensures AudioInputOptions(capture, render)[k].deviceId.None? <==> k == 0
  {
    var options := AudioInputOptions(capture, render);
    var (c, d) := EnumeratedEndpoints(capture, render);
    AudioInputOptionsShape(capture, render);
    if 0 < k <= |c| {
      assert options[1 + (k - 1)] == DeviceOption(c[k - 1], false);
    } else if k > |c| {
      assert options[1 + |c| + (k - 1 - |c|)] == DeviceOption(d[k - 1 - |c|], true);
    }
  }

  /** The combo box items: each option's display name, in list order. */
  function DisplayNames(options: seq<AudioInputOption>): (names: seq<string>)
    ensures |names| == |options|
  {
    if options == [] then []
    else DisplayNames(options[..|options| - 1]) + [options[|options| - 1].displayName]
  }

  lemma {:induction false} DisplayNamesIndex(options: seq<AudioInputOption>)
    ensures forall i :: 0 <= i < |options| ==> DisplayNames(options)[i] == options[i].displayName
  {
    if options != [] {
      DisplayNamesIndex(options[..|options| - 1]);
    }
  }

  /**
   * The audio source panel: the option list and the combo box selection. The
   * combo box shows the options' display names in list order.
   */
  class AudioSourcePanel {
    var audioInputOptions: seq<AudioInputOption>
    var items: seq<string>
    var selectedIndex: int

    constructor()
      ensures audioInputOptions == [] && items == [] && selectedIndex == -1
    {
      audioInputOptions := [];
      items := [];
      selectedIndex := -1;
    }

    /**
     * `LoadAudioInputOptions`: rebuilds the list from the two enumerations and
     * selects the first entry.
     */
    method LoadAudioInputOptions(capture: Option<seq<Endpoint>>, render: Option<seq<Endpoint>>)
      modifies this
      ensures audioInputOptions == AudioInputOptions(capture, render)
      ensures items == DisplayNames(audioInputOptions)
      ensures selectedIndex == 0
    {
      audioInputOptions := [];
      items := [];

      audioInputOptions := audioInputOptions + [AudioInputOption(DefaultInputName, None)];
      assert audioInputOptions == [AudioInputOption(DefaultInputName, None)];

      var devices := EnumeratedEndpoints(capture, render);
      AddDeviceOptions(devices.0, false);
      AddDeviceOptions(devices.1, true);

      AddComboItems();
      selectedIndex := 0;
    }

    /** The `foreach` over one group of endpoints: one entry per endpoint, appended in order. */
    method AddDeviceOptions(devices: seq<Endpoint>, loopback: bool)
      modifies this
      ensures audioInputOptions == old(audioInputOptions) + DeviceOptions(devices, loopback)
      ensures items == old(items) && selectedIndex == old(selectedIndex)
    {
      ghost var head := audioInputOptions;
      for i := 0 to |devices|
        invariant items == old(items) && selectedIndex == old(selectedIndex)
        invariant audioInputOptions == head + DeviceOptions(devices[..i], loopback)
      {
        var device := devices[i];
        assert head + DeviceOptions(devices[..i + 1], loopback)
            == audioInputOptions + [DeviceOption(device, loopback)] by {
          DeviceOptionsStep(devices, i, loopback);
          ConcatAssociates(head, DeviceOptions(devices[..i], loopback), [DeviceOption(device, loopback)]);
        }
        if loopback {
          audioInputOptions := audioInputOptions + [AudioInputOption(LoopbackLabel + device.friendlyName, Some(LoopbackPrefix + device.id))];
        } else {
          audioInputOptions := audioInputOptions + [AudioInputOption(CaptureLabel + device.friendlyName, Some(CapturePrefix + device.id))];
        }
      }
      assert devices[..|devices|] == devices;
    }

    /** The `foreach` that fills the combo box with the display names. */
    method AddComboItems()
      requires items == []
      modifies this
      ensures items == DisplayNames(audioInputOptions)
      ensures audioInputOptions == old(audioInputOptions) && selectedIndex == old(selectedIndex)
    {
      ghost var options := audioInputOptions;
      for i := 0 to |audioInputOptions|
        invariant audioInputOptions == options && selectedIndex == old(selectedIndex)
        invariant items == DisplayNames(options[..i])
      {
        assert DisplayNames(options[..i + 1]) == items + [options[i].displayName] by {
          assert options[..i + 1][..i] == options[..i];
        }
        items := items + [audioInputOptions[i].displayName];
      }
      assert options[..|options|] == options;
    }

    /** `GetSelectedAudioDeviceId`: the selected entry's device id; none without a valid selection. */
    function GetSelectedAudioDeviceId(): (deviceId: Option<string>)
      reads this
      ensures (selectedIndex < 0 || selectedIndex >= |audioInputOptions|) ==> deviceId.None?
      ensures 0 <= selectedIndex < |audioInputOptions| ==> deviceId == audioInputOptions[selectedIndex].deviceId
    {
      if selectedIndex < 0 || selectedIndex >= |audioInputOptions| then None
      else audioInputOptions[selectedIndex].deviceId
    }
  }
}
