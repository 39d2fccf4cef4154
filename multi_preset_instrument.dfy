/**
 * `MultiPresetInstrument`: several playback instruments (soundfont presets
 * or existing instruments) sharing one notated part. Each preset has a name,
 * an instrument and up to three property bundles: one added to every note,
 * one added when playback switches to the preset, and one the NEXT note adds
 * when playback switches away from it.
 *
 * Note properties are opaque here: a bundle stands for the property
 * specification it was given as (e.g. "pizz."), and building a note's
 * properties is modelled as the ordered list of bundles incorporated into a
 * blank property set, absent bundles contributing nothing.
 */
module Presets {
  import opened Wrappers

  /** A property specification in any of the accepted formats, kept as given. */
  datatype Bundle = Bundle(spec: string)

  /** A soundfont preset given by name, by number, or by (bank, number). */
  datatype SoundfontPreset = ByName(presetName: string) | ByNumber(number: int) | ByBank(bank: int, number: int)

  /** The second argument of `add_preset`: an existing instrument, or a soundfont preset. */
  datatype InstrumentSource = ScampInstrument(id: nat) | Soundfont(preset: SoundfontPreset)

  /**
   * The instrument a preset plays on: the one supplied, or a new part of the
   * session named after the notated part and the preset.
   */
  datatype Instrument = Existing(id: nat) | NewPart(partName: string, preset: SoundfontPreset)

  /** The five-field preset record: name, instrument, and the three bundles. */
  datatype Preset = Preset(
    name: string,
    inst: Instrument,
    bundled: Option<Bundle>,
    onSwitch: Option<Bundle>,
    onSwitchAway: Option<Bundle>)

  /** `presets[0]` on an empty list, and unpacking a tuple into the wrong number of names. */
  datatype PresetError = IndexError | ValueError

  /** The bundles a single optional bundle contributes when incorporated. */
  function Layer(b: Option<Bundle>): seq<Bundle>
  {
    if b.Some? then [b.value] else []
  }

  /** Some preset in the list carries this name. */
  predicate NameIn(presets: seq<Preset>, name: string)
  {
    exists i :: 0 <= i < |presets| && presets[i].name == name
  }

  /** The preset `add_preset` builds; a soundfont preset becomes a part named "<part>-<preset>". */
  function MakePreset(
    partName: string, name: string, source: InstrumentSource,
    bundled: Option<Bundle>, onSwitch: Option<Bundle>, onSwitchAway: Option<Bundle>): (p: Preset)
    ensures p.name == name && p.bundled == bundled && p.onSwitch == onSwitch && p.onSwitchAway == onSwitchAway
    ensures source.ScampInstrument? ==> p.inst == Existing(source.id)
    ensures source.Soundfont? ==> p.inst.NewPart? && p.inst.preset == source.preset
    ensures source.Soundfont? ==> |p.inst.partName| == |partName| + 1 + |name|
    ensures source.Soundfont? ==> p.inst.partName[..|partName|] == partName && p.inst.partName[|partName|] == '-'
    ensures source.Soundfont? ==> p.inst.partName[|partName| + 1..] == name
  {
    var inst := match source
      case ScampInstrument(id) => Existing(id)
      case Soundfont(sf) => NewPart(partName + "-" + name, sf);
    Preset(name, inst, bundled, onSwitch, onSwitchAway)
  }

  /** The preset list after `add_preset`: inserted at the front when it is to be the default, else appended. */
  function Added(presets: seq<Preset>, p: Preset, makeDefault: bool): (r: seq<Preset>)
    ensures |r| == |presets| + 1
    ensures multiset(r) == multiset(presets) + multiset{p}
    ensures makeDefault ==> r[0] == p && r[1..] == presets
    ensures !makeDefault ==> r[..|presets|] == presets && r[|presets|] == p
  {
    if makeDefault then [p] + presets else presets + [p]
  }

  /**
   * `_get_preset_index`: the index of the first preset with this name, or
   * None when no preset has it.
   */
  function PresetIndex(presets: seq<Preset>, name: string): (r: Option<nat>)
    ensures r.None? <==> !NameIn(presets, name)
    ensures r.Some? ==> r.value < |presets| && presets[r.value].name == name
    ensures r.Some? ==> forall j :: 0 <= j < r.value ==> presets[j].name != name
  {
    if presets == [] then None
    else if presets[0].name == name then Some(0)
    else
      var rest := PresetIndex(presets[1..], name);
      assert NameIn(presets, name) ==> NameIn(presets[1..], name) by {
        if NameIn(presets, name) {
          var i :| 0 <= i < |presets| && presets[i].name == name;
          assert presets[1..][i - 1].name == name;
        }
      }
      match rest
      case None => None
      case Some(i) => Some(i + 1)
  }

  /** What `_resolve_preset` finds: nothing when no preset exists, else a preset and whether it fell back. */
  datatype Resolution = NoPresets | Resolved(preset: Preset, fellBack: bool)

  /**
   * `_resolve_preset`: no presets gives nothing; no name gives the default
   * (the first preset); an unknown name gives the default with a warning
   * (`fellBack`); a known name gives the first preset carrying it.
   */
  function ResolvePreset(presets: seq<Preset>, requested: Option<string>): (r: Resolution)
    ensures r.NoPresets? <==> presets == []
    ensures presets != [] && requested.None? ==> r == Resolved(presets[0], false)
    ensures r.Resolved? && r.fellBack <==> presets != [] && requested.Some? && !NameIn(presets, requested.value)
    ensures r.Resolved? && r.fellBack ==> r.preset == presets[0]
    ensures r.Resolved? && !r.fellBack && requested.Some? ==>
      r.preset.name == requested.value &&
      exists i :: 0 <= i < |presets| && presets[i] == r.preset &&
        forall j :: 0 <= j < i ==> presets[j].name != requested.value
  {
    if presets == [] then NoPresets
    else if requested.None? then Resolved(presets[0], false)
    else
      match PresetIndex(presets, requested.value)
      case None => Resolved(presets[0], true)
      case Some(i) => Resolved(presets[i], false)
  }

  /**
   * `_check_if_switched`: before any note, a switch means leaving the
   * default preset; afterwards, it means a name other than the last one
   * played. With no preset and no note played, `presets[0]` fails.
   */
  function Switched(presets: seq<Preset>, last: Option<string>, name: string): (r: Result<bool, PresetError>)
    ensures r.Failure? <==> last.None? && presets == []
    ensures r.Failure? ==> r.error == IndexError
    ensures r.Success? ==> (r.value <==> (last.None? && name != presets[0].name) || (last.Some? && name != last.value))
  {
    if last.None? then
      if presets == [] then Failure(IndexError) else Success(name != presets[0].name)
    else
      Success(last.value != name)
  }

  /** The switch-away bundle of the preset last played, found again by its name. */
  function SwitchAway(presets: seq<Preset>, lastName: string): (b: Option<Bundle>)
    ensures NameIn(presets, lastName) ==> exists i :: 0 <= i < |presets| && presets[i].name == lastName && b == presets[i].onSwitchAway
    ensures presets == [] ==> b.None?
  {
    match ResolvePreset(presets, Some(lastName))
    case NoPresets => None
    case Resolved(p, _) => p.onSwitchAway
  }

  /**
   * `_resolve_properties` as written: the preset's bundle, then the previous
   * preset's switch-away bundle (only on a switch after an earlier note),
   * then the switch bundle, then the note's own properties. Only the
   * switched branch re-examines the switch bundle, so it is kept whether or
   * not a switch happened.
   */
  function PropertyLayers(
    presets: seq<Preset>, last: Option<string>, name: string,
    note: Option<Bundle>, presetProps: Option<Bundle>, switchProps: Option<Bundle>): (r: Result<seq<Bundle>, PresetError>)
    ensures r.Failure? <==> last.None? && presets == []
    ensures r.Success? && !Switched(presets, last, name).value ==>
      r.value == Layer(presetProps) + Layer(switchProps) + Layer(note)
    ensures r.Success? && last.None? ==>
      r.value == Layer(presetProps) + Layer(switchProps) + Layer(note)
    ensures r.Success? && last.Some? && last.value != name ==>
      r.value == Layer(presetProps) + Layer(SwitchAway(presets, last.value)) + Layer(switchProps) + Layer(note)
  {
    var switched :- Switched(presets, last, name);
    var kept :=
      if switched then
        (if Switched(presets, last, name).value then switchProps else None)
      else switchProps;
    var away := if switched && last.Some? then SwitchAway(presets, last.value) else None;
    Success(Layer(presetProps) + Layer(away) + Layer(kept) + Layer(note))
  }

  /**
   * The behaviour line 124 of the source describes: the switch bundle is
   * dropped unless the preset was switched to.
   */
  function IntendedLayers(
    presets: seq<Preset>, last: Option<string>, name: string,
    note: Option<Bundle>, presetProps: Option<Bundle>, switchProps: Option<Bundle>): (r: Result<seq<Bundle>, PresetError>)
    ensures r.Failure? <==> last.None? && presets == []
    ensures r.Success? && !Switched(presets, last, name).value ==>
      r.value == Layer(presetProps) + Layer(note)
    ensures r.Success? && Switched(presets, last, name).value && last.None? ==>
      r.value == Layer(presetProps) + Layer(switchProps) + Layer(note)
    ensures r.Success? && last.Some? && last.value != name ==>
      r.value == Layer(presetProps) + Layer(SwitchAway(presets, last.value)) + Layer(switchProps) + Layer(note)
  {
    var switched :- Switched(presets, last, name);
    var away := if switched && last.Some? then SwitchAway(presets, last.value) else None;
    Success(Layer(presetProps) + Layer(away) + Layer(if switched then switchProps else None) + Layer(note))
  }

  /** The two agree exactly when a switch happened or there is no switch bundle. */
  lemma IntendedDiffers(
    presets: seq<Preset>, last: Option<string>, name: string,
    note: Option<Bundle>, presetProps: Option<Bundle>, switchProps: Option<Bundle>)
    requires last.Some? || presets != []
    ensures PropertyLayers(presets, last, name, note, presetProps, switchProps) ==
            IntendedLayers(presets, last, name, note, presetProps, switchProps)
        <==> Switched(presets, last, name).value || switchProps.None?
  {
    var asWritten := PropertyLayers(presets, last, name, note, presetProps, switchProps);
    var intended := IntendedLayers(presets, last, name, note, presetProps, switchProps);
    if !Switched(presets, last, name).value && switchProps.Some? {
      assert |asWritten.value| == |intended.value| + 1;
    }
  }

  /**
   * A one-preset instrument whose preset has only a switch bundle: the first
   * note with it is no switch, yet as written it carries the switch bundle.
   */
  lemma SwitchBundleWithoutSwitch(inst: Instrument, b: Bundle)
    ensures
      var presets := [Preset("pizz", inst, None, Some(b), None)];
      Switched(presets, None, "pizz") == Success(false) &&
      PropertyLayers(presets, None, "pizz", None, None, Some(b)) == Success([b]) &&
      IntendedLayers(presets, None, "pizz", None, None, Some(b)) == Success([])
  {
    var presets := [Preset("pizz", inst, None, Some(b), None)];
    assert Switched(presets, None, "pizz") == Success(false);
    assert Layer(None) + Layer(None) + Layer(Some(b)) + Layer(None) == [b];
  }

  /** Which of the four playing methods was called. */
  datatype Gesture = PlayNote | PlayChord | StartNote | StartChord
  {
    /** `start_note` and `start_chord` return a handle; the play methods return nothing. */
    predicate Starts() { this == StartNote || this == StartChord }
  }

  /** The call made on the preset's own instrument (not transcribed). */
  datatype Sent = Sent(gesture: Gesture, inst: Instrument, layers: seq<Bundle>)

  /** The properties the notated part is given: the resolved ones, or the caller's unchanged. */
  datatype NotationProps = Incorporated(layers: seq<Bundle>) | AsGiven(props: Option<Bundle>)

  /** Something of which a handle is kept: the preset's instrument, or the notated part. */
  datatype Target = PresetInstrument(inst: Instrument) | NotationPart

  datatype Warning = UnresolvedPreset(requested: string) | NoPresetsDefined

  /**
   * One call of `play_note`, `play_chord`, `start_note` or `start_chord`:
   * the call sent to the preset's instrument, the properties the notated part
   * plays with, the warnings logged, and (for the start methods) the targets
   * whose handles the returned `MultiNoteHandle` bundles, in order.
   */
  datatype Performance = Performance(
    toPreset: Option<Sent>,
    toNotation: NotationProps,
    warnings: seq<Warning>,
    handles: seq<Target>)

  /** The outcome of a playing call and the new `last_preset_played`. */
  datatype Played = Played(performance: Performance, last: Option<string>)

  /**
   * What the four playing methods do, given the presets and the preset last
   * played: resolve the requested preset, incorporate its bundles into the
   * note's properties and play it on the preset's instrument (recording the
   * RESOLVED preset's name as last played), and play it on the notated part.
   */
  function Perform(
    presets: seq<Preset>, last: Option<string>, gesture: Gesture,
    requested: Option<string>, props: Option<Bundle>): (r: Played)
    ensures presets == [] ==> r.performance.toPreset.None? && r.performance.toNotation == AsGiven(props) && r.last == last
    ensures presets == [] ==> r.performance.warnings == [NoPresetsDefined]
    ensures presets != [] ==>
      r.performance.toPreset.Some? && r.performance.toPreset.value.gesture == gesture &&
      r.performance.toNotation == Incorporated(r.performance.toPreset.value.layers) &&
      r.last.Some? && NameIn(presets, r.last.value)
    ensures presets != [] ==> exists i :: 0 <= i < |presets| && presets[i].inst == r.performance.toPreset.value.inst
    ensures gesture.Starts() && presets != [] ==>
      r.performance.handles == [PresetInstrument(r.performance.toPreset.value.inst), NotationPart]
    ensures gesture.Starts() && presets == [] ==> r.performance.handles == [NotationPart]
    ensures !gesture.Starts() ==> r.performance.handles == []
  {
    match ResolvePreset(presets, requested)
    case NoPresets =>
      var handles := if gesture.Starts() then [NotationPart] else [];
      Played(Performance(None, AsGiven(props), [NoPresetsDefined], handles), last)
    case Resolved(p, fellBack) =>
      var layers := PropertyLayers(presets, last, p.name, props, p.bundled, p.onSwitch).value;
      var warnings := if fellBack then [UnresolvedPreset(requested.value)] else [];
      var handles := if gesture.Starts() then [PresetInstrument(p.inst), NotationPart] else [];
      Played(Performance(Some(Sent(gesture, p.inst, layers)), Incorporated(layers), warnings, handles), Some(p.name))
  }

  /**
   * A name no preset carries plays the default preset, logs a warning, and
   * records the DEFAULT's name as last played, so the next switch test
   * compares against the default.
   */
  lemma UnknownRecordsDefault(presets: seq<Preset>, last: Option<string>, gesture: Gesture, name: string, props: Option<Bundle>)
    requires presets != [] && !NameIn(presets, name)
    ensures Perform(presets, last, gesture, Some(name), props).last == Some(presets[0].name)
    ensures Perform(presets, last, gesture, Some(name), props).performance.warnings == [UnresolvedPreset(name)]
    ensures Perform(presets, last, gesture, Some(name), props).performance.toPreset.value.inst == presets[0].inst
  {
  }

  /**
   * Playing the same requested preset twice in a row is a switch at most the
   * first time: the second note finds its own name recorded as last played.
   */
  lemma RepeatNotSwitched(presets: seq<Preset>, last: Option<string>, gesture: Gesture, requested: Option<string>, props: Option<Bundle>)
    requires presets != []
    ensures
      var first := Perform(presets, last, gesture, requested, props);
      var p := ResolvePreset(presets, requested).preset;
      first.last == Some(p.name) &&
      Switched(presets, first.last, p.name) == Success(false)
  {
  }

  /**
   * On the second of two notes with the same preset, as written, the notated
   * part gets the preset's bundle, its switch bundle again, and the note's
   * properties, and never a switch-away bundle.
   */
  lemma RepeatLayers(presets: seq<Preset>, last: Option<string>, gesture: Gesture, requested: Option<string>, props: Option<Bundle>, props2: Option<Bundle>)
    requires presets != []
    ensures
      var first := Perform(presets, last, gesture, requested, props);
      var second := Perform(presets, first.last, gesture, requested, props2);
      var p := ResolvePreset(presets, requested).preset;
      second.performance.toNotation == Incorporated(Layer(p.bundled) + Layer(p.onSwitch) + Layer(props2))
  {
    var first := Perform(presets, last, gesture, requested, props);
    var p := ResolvePreset(presets, requested).preset;
    RepeatNotSwitched(presets, last, gesture, requested, props);
    assert Switched(presets, first.last, p.name) == Success(false);
  }

  /**
   * When playback moves to another preset after a note, the new note takes
   * the previous preset's switch-away bundle after its own bundle and
   * before its switch bundle.
   */
  lemma SwitchAwayAdded(presets: seq<Preset>, i: nat, gesture: Gesture, requested: Option<string>, props: Option<Bundle>)
    requires i < |presets| && presets != []
    requires presets[i].name != ResolvePreset(presets, requested).preset.name
    requires forall j :: 0 <= j < i ==> presets[j].name != presets[i].name
    ensures
      var p := ResolvePreset(presets, requested).preset;
      Perform(presets, Some(presets[i].name), gesture, requested, props).performance.toNotation ==
        Incorporated(Layer(p.bundled) + Layer(presets[i].onSwitchAway) + Layer(p.onSwitch) + Layer(props))
  {
    var p := ResolvePreset(presets, requested).preset;
    var index := PresetIndex(presets, presets[i].name);
    assert index == Some(i) by {
      assert NameIn(presets, presets[i].name);
    }
    assert SwitchAway(presets, presets[i].name) == presets[i].onSwitchAway;
  }

  /**
   * `send_midi_cc`, `end_all_notes` and `set_max_pitch_bend`: the call each
   * forwards to every preset's instrument.
   */
  datatype Command = SendMidiCC(ccNumber: int, value: real) | EndAllNotes | SetMaxPitchBend(semitones: int)

  datatype Delivery = Delivery(inst: Instrument, command: Command)

  /**
   * The forwarding loop as written: it unpacks each five-field preset into
   * four names, so with any preset present it raises ValueError before a
   * single call is made.
   */
  function BroadcastAsWritten(presets: seq<Preset>, command: Command): (r: Result<seq<Delivery>, PresetError>)
    ensures r.Failure? <==> presets != []
    ensures r.Failure? ==> r.error == ValueError
    ensures r.Success? ==> r.value == []
  {
    if presets == [] then Success([]) else Failure(ValueError)
  }

  /** The forwarding the docstrings describe: one call per preset, in preset order. */
  function Broadcast(presets: seq<Preset>, command: Command): (r: seq<Delivery>)
    ensures |r| == |presets|
    ensures forall i :: 0 <= i < |r| ==> r[i] == Delivery(presets[i].inst, command)
  {
    if presets == [] then [] else [Delivery(presets[0].inst, command)] + Broadcast(presets[1..], command)
  }

  /** With a single preset, the forwarding should reach its instrument, but as written it raises. */
  lemma BroadcastFailsOnePreset(p: Preset, command: Command)
    ensures Broadcast([p], command) == [Delivery(p.inst, command)]
    ensures BroadcastAsWritten([p], command) == Failure(ValueError)
  {
  }

  /** The objects of the class: the notated part's name, the preset list, and the preset last played. */
  class MultiPresetInstrument {
    /** The `name` property: the name of the notated part, read and written through it. */
    var name: string
    var presets: seq<Preset>
    var lastPresetPlayed: Option<string>

    /** The preset last played is always one of the presets. */
    ghost predicate Valid()
      reads this
    {
      lastPresetPlayed.Some? ==> NameIn(presets, lastPresetPlayed.value)
    }

    /** A new instrument has no preset and has played nothing. */
    constructor(name: string)
      ensures this.name == name && presets == [] && lastPresetPlayed == None
      ensures Valid()
    {
      this.name := name;
      presets := [];
      lastPresetPlayed := None;
    }

    /**
     * `add_preset`: builds the preset, puts it first when `makeDefault` and
     * last otherwise, and returns the instrument itself for chaining.
     */
    method AddPreset(
      presetName: string, source: InstrumentSource,
      bundled: Option<Bundle>, onSwitch: Option<Bundle>, onSwitchAway: Option<Bundle>,
      makeDefault: bool) returns (r: MultiPresetInstrument)
      requires Valid()
      modifies this
      ensures Valid()
      ensures r == this
      ensures presets == Added(old(presets), MakePreset(name, presetName, source, bundled, onSwitch, onSwitchAway), makeDefault)
      ensures name == old(name) && lastPresetPlayed == old(lastPresetPlayed)
    {
      var inst: Instrument;
      if source.ScampInstrument? {
        inst := Existing(source.id);
      } else {
        inst := NewPart(name + "-" + presetName, source.preset);
      }
      var preset := Preset(presetName, inst, bundled, onSwitch, onSwitchAway);
      ghost var before := presets;
      if makeDefault {
        presets := [preset] + presets;
      } else {
        presets := presets + [preset];
      }
      if lastPresetPlayed.Some? {
        ghost var i :| 0 <= i < |before| && before[i].name == lastPresetPlayed.value;
        ghost var k := if makeDefault then i + 1 else i;
        assert presets[k].name == lastPresetPlayed.value;
      }
      r := this;
    }

    /**
     * `_resolve_properties`: decides whether playback switched, builds the
     * note's properties, and records the name as last played.
     */
    method ResolveProperties(
      presetName: string, note: Option<Bundle>, presetProps: Option<Bundle>, switchProps: Option<Bundle>)
      returns (r: Result<seq<Bundle>, PresetError>)
      modifies this
      ensures r == PropertyLayers(old(presets), old(lastPresetPlayed), presetName, note, presetProps, switchProps)
      ensures lastPresetPlayed == if r.Success? then Some(presetName) else old(lastPresetPlayed)
      ensures name == old(name) && presets == old(presets)
    {
      var switched := Switched(presets, lastPresetPlayed, presetName);
      if switched.Failure? {
        return Failure(switched.error);
      }
      var kept := switchProps;
      var away: Option<Bundle>;
      if switched.value {
        var again := Switched(presets, lastPresetPlayed, presetName);
        kept := if again.value then switchProps else None;
        away := if lastPresetPlayed.Some? then SwitchAway(presets, lastPresetPlayed.value) else None;
      } else {
        away := None;
      }
      lastPresetPlayed := Some(presetName);
      r := Success(Layer(presetProps) + Layer(away) + Layer(kept) + Layer(note));
    }

    /**
     * `play_note`, `play_chord`, `start_note` and `start_chord`: they differ
     * only in the call made and in the handle the start methods return.
     * Because the preset last played is always one of the presets, a switch
     * away from it finds and applies its switch-away bundle.
     */
    method Play(gesture: Gesture, requested: Option<string>, props: Option<Bundle>) returns (r: Performance)
      requires Valid()
      modifies this
      ensures Valid()
      ensures Played(r, lastPresetPlayed) == Perform(old(presets), old(lastPresetPlayed), gesture, requested, props)
      ensures name == old(name) && presets == old(presets)
      ensures old(lastPresetPlayed).Some? && lastPresetPlayed != old(lastPresetPlayed) ==>
        exists i :: 0 <= i < |presets| && presets[i].name == old(lastPresetPlayed).value &&
          (presets[i].onSwitchAway.Some? ==> r.toPreset.Some? && presets[i].onSwitchAway.value in r.toPreset.value.layers)
    {
      ghost var expected := Perform(presets, lastPresetPlayed, gesture, requested, props);
      match ResolvePreset(presets, requested)
      case NoPresets =>
        r := Performance(None, AsGiven(props), [NoPresetsDefined], if gesture.Starts() then [NotationPart] else []);
      case Resolved(p, fellBack) =>
        ghost var expectedLayers := PropertyLayers(presets, lastPresetPlayed, p.name, props, p.bundled, p.onSwitch);
        var layers := ResolveProperties(p.name, props, p.bundled, p.onSwitch);
        assert layers == expectedLayers;
        var warnings := if fellBack then [UnresolvedPreset(requested.value)] else [];
        var handles := if gesture.Starts() then [PresetInstrument(p.inst), NotationPart] else [];
        r := Performance(Some(Sent(gesture, p.inst, layers.value)), Incorporated(layers.value), warnings, handles);
        assert Played(r, lastPresetPlayed) == expected;
    }
  }

  /**
   * `add_preset` and the default: the preset added with `makeDefault`, or
   * the first preset ever added, becomes the default; otherwise the default
   * stays.
   */
  lemma AddedDefault(presets: seq<Preset>, p: Preset, makeDefault: bool)
    ensures ResolvePreset(Added(presets, p, makeDefault), None).preset ==
      if makeDefault || presets == [] then p else presets[0]
  {
  }

  /**
   * Appending a preset leaves the resolution of every name already present
   * unchanged: lookup finds the first preset with a name.
   */
  lemma {:induction false} AppendKeepsIndex(presets: seq<Preset>, p: Preset, name: string)
    requires NameIn(presets, name)
    ensures PresetIndex(presets + [p], name) == PresetIndex(presets, name)
  {
    var i := PresetIndex(presets, name).value;
    var extended := presets + [p];
    assert extended[i].name == name;
    assert forall j :: 0 <= j < i ==> extended[j].name != name;
    assert forall j :: 0 <= j < |presets| ==> extended[j] == presets[j];
  }

  /** So a preset added without `makeDefault` never changes what an existing name plays. */
  lemma AppendKeepsResolution(presets: seq<Preset>, p: Preset, name: string)
    requires NameIn(presets, name)
    ensures ResolvePreset(Added(presets, p, false), Some(name)) == ResolvePreset(presets, Some(name))
  {
    AppendKeepsIndex(presets, p, name);
    var i :| 0 <= i < |presets| && presets[i].name == name;
    assert (presets + [p])[i].name == name;
  }
}
