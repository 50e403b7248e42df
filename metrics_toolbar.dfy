/** The metrics toolbar's pure helpers: toggling a field in the selection, the
    time-range presets, which preset is highlighted, and the field list shown. */
module MetricsToolbar {
  import opened Wrappers
  import opened MetricFields

  datatype Preset = ThirtyMinutes | TwoHours | OneDay | Custom

  /** One preset button: its label (`title`, since `label` is a Dafny
      keyword), its preset and, except for `custom`, its length in minutes. */
  datatype PresetDefinition = PresetDefinition(title: string, preset: Preset, minutes: Option<int>)

  /** `presetDefinitions`, in display order. */
  const PresetDefinitions: seq<PresetDefinition> := [
    PresetDefinition("30m", ThirtyMinutes, Some(30)),
    PresetDefinition("2h", TwoHours, Some(120)),
    PresetDefinition("24h", OneDay, Some(24 * 60)),
    PresetDefinition("Custom", Custom, None)
  ]

  const MinuteMs: int := 60 * 1000

  /** The selected range: a preset and the bounds in milliseconds, either of
      which may be missing. */
  datatype TimeRangeSelection = TimeRangeSelection(preset: Preset, from: Option<int>, to: Option<int>)

  /** `handlePresetSelect` with `Date.now()` given as `now`: `custom` keeps the
      current bounds; any other preset ends at `now` and starts `minutes`
      earlier (no minutes count as 0). */
  function SelectPreset(range: TimeRangeSelection, preset: Preset, minutes: Option<int>, now: int)
    : (r: TimeRangeSelection)
    ensures preset == Custom ==> r == TimeRangeSelection(Custom, range.from, range.to)
    ensures preset != Custom ==>
              r.preset == preset && r.to == Some(now) && r.from.Some? &&
              now - r.from.value == (if minutes.Some? then minutes.value else 0) * MinuteMs
  {
    if preset == Custom then TimeRangeSelection(Custom, range.from, range.to)
    else
      var duration := (if minutes.Some? then minutes.value else 0) * 60 * 1000;
      TimeRangeSelection(preset, Some(now - duration), Some(now))
  }

  /** The length of each fixed preset in milliseconds. */
  function PresetLength(p: Preset): int {
    match p
    case ThirtyMinutes => 30 * MinuteMs
    case TwoHours => 120 * MinuteMs
    case OneDay => 1440 * MinuteMs
    case Custom => 0
  }

  /** Pressing any fixed preset button selects a range of that preset's length
      ending now; pressing `custom` keeps the range. */
  lemma PresetButtonRange(range: TimeRangeSelection, i: int, now: int)
    requires 0 <= i < |PresetDefinitions|
    ensures var d := PresetDefinitions[i];
            var r := SelectPreset(range, d.preset, d.minutes, now);
            (d.preset != Custom ==>
               r.preset == d.preset && r.to == Some(now) && r.from == Some(now - PresetLength(d.preset))) &&
            (d.preset == Custom ==> r.from == range.from && r.to == range.to)
  {
  }

  /** The position of each preset's button. */
  function ButtonIndex(p: Preset): (i: int)
    ensures 0 <= i < |PresetDefinitions| && PresetDefinitions[i].preset == p
  {
    match p
    case ThirtyMinutes => 0
    case TwoHours => 1
    case OneDay => 2
    case Custom => 3
  }

  /** `isPresetActive`: the highlighted button is the selected preset, provided
      its button has a fixed length. */
  predicate IsPresetActive(range: TimeRangeSelection, preset: Preset)
    ensures IsPresetActive(range, preset) <==>
              range.preset == preset &&
              exists i | 0 <= i < |PresetDefinitions| ::
                PresetDefinitions[i].preset == preset && PresetDefinitions[i].minutes.Some?
  {
    var i := ButtonIndex(preset);
    assert PresetDefinitions[i].minutes.Some? <==> preset != Custom;
    range.preset == preset && preset != Custom
  }

  /** `custom` is never highlighted, and at most one button is. */
  lemma ActivePresetIsUnique(range: TimeRangeSelection, p: Preset, q: Preset)
    ensures !IsPresetActive(range, Custom)
    ensures IsPresetActive(range, p) && IsPresetActive(range, q) ==> p == q
    ensures IsPresetActive(range, p) <==> p != Custom && range.preset == p
  {
  }

  /** After a fixed preset is chosen, exactly its button is highlighted; after
      `custom`, none is. */
  lemma SelectedPresetIsActive(range: TimeRangeSelection, preset: Preset, minutes: Option<int>, now: int,
                               q: Preset)
    ensures IsPresetActive(SelectPreset(range, preset, minutes, now), q) <==> preset != Custom && q == preset
  {
  }

  /** `filter((item) => item !== field)`: every occurrence of `field` removed,
      the rest kept in order. */
  function Without(s: seq<MetricField>, field: MetricField): (r: seq<MetricField>)
    ensures field !in r
    ensures forall g | g != field :: multiset(r)[g] == multiset(s)[g]
    ensures |r| <= |s|
    decreases |s|
  {
    if |s| == 0 then []
    else
      var rest := Without(s[1..], field);
      assert s == [s[0]] + s[1..];
      if s[0] == field then rest else [s[0]] + rest
  }

  /** Removing a field that is not there changes nothing. */
  lemma {:induction false} WithoutAbsent(s: seq<MetricField>, field: MetricField)
    requires field !in s
    ensures Without(s, field) == s
    decreases |s|
  {
    if |s| > 0 {
      WithoutAbsent(s[1..], field);
    }
  }

  /** Removing a field from a list with another field appended. */
  lemma {:induction false} WithoutAppend(s: seq<MetricField>, x: MetricField, field: MetricField)
    ensures Without(s + [x], field) == Without(s, field) + (if x == field then [] else [x])
    decreases |s|
  {
    if |s| == 0 {
      assert s + [x] == [x];
    } else {
      assert (s + [x])[1..] == s[1..] + [x];
      WithoutAppend(s[1..], x, field);
    }
  }

  /** Removing the same field twice is removing it once. */
  lemma {:induction false} WithoutTwice(s: seq<MetricField>, field: MetricField)
    ensures Without(Without(s, field), field) == Without(s, field)
  {
    WithoutAbsent(Without(s, field), field);
  }

  /** `toggleField`: a selected field is removed everywhere, any other field is
      appended at the end. */
  function ToggleField(selected: seq<MetricField>, field: MetricField): (r: seq<MetricField>)
    ensures field in r <==> field !in selected
    ensures forall g | g != field :: multiset(r)[g] == multiset(selected)[g]
    ensures field !in selected ==> |r| == |selected| + 1 && r[..|selected|] == selected && r[|selected|] == field
  {
    if field in selected then Without(selected, field) else selected + [field]
  }

  /** Toggling never moves the other fields: with `field` taken out, the list
      before and after is the same sequence. */
  lemma ToggleKeepsOthers(selected: seq<MetricField>, field: MetricField)
    ensures Without(ToggleField(selected, field), field) == Without(selected, field)
  {
    if field in selected {
      WithoutTwice(selected, field);
    } else {
      WithoutAppend(selected, field, field);
    }
  }

  /** Toggling an unselected field on and off again restores the selection. */
  lemma ToggleTwiceRestores(selected: seq<MetricField>, field: MetricField)
    requires field !in selected
    ensures ToggleField(ToggleField(selected, field), field) == selected
  {
    WithoutAppend(selected, field, field);
    WithoutAbsent(selected, field);
  }

  /** The present entries of a list that may hold falsy ones (`None`), in
      order: `filter(Boolean)`. */
  function Present(xs: seq<Option<MetricField>>): (r: seq<MetricField>)
    ensures forall f :: f in r <==> Some(f) in xs
    ensures forall f {:trigger multiset(r)[f]} :: multiset(r)[f] == multiset(xs)[Some(f)]
    ensures |r| <= |xs|
    decreases |xs|
  {
    if |xs| == 0 then []
    else
      var rest := Present(xs[1..]);
      assert forall x :: x in xs <==> x == xs[0] || x in xs[1..];
      assert xs == [xs[0]] + xs[1..];
      if xs[0].Some? then [xs[0].value] + rest else rest
  }

  /** Dropping the falsy entries of a list with one more entry appended: the kept
      entries stay in their order. */
  lemma {:induction false} PresentAppend(xs: seq<Option<MetricField>>, x: Option<MetricField>)
    ensures Present(xs + [x]) == Present(xs) + (if x.Some? then [x.value] else [])
    decreases |xs|
  {
    if |xs| == 0 {
      assert xs + [x] == [x];
    } else {
      var ys := xs + [x];
      var head := if xs[0].Some? then [xs[0].value] else [];
      var tail := if x.Some? then [x.value] else [];
      assert ys[0] == xs[0] && ys[1..] == xs[1..] + [x];
      PresentAppend(xs[1..], x);
      calc {
        Present(ys);
        head + Present(xs[1..] + [x]);
        head + (Present(xs[1..]) + tail);
        (head + Present(xs[1..])) + tail;
        Present(xs) + tail;
      }
    }
  }

  /** `sortedFields`: the present fields, sorted, as a new list. */
  function SortedFields(available: seq<Option<MetricField>>): (r: seq<MetricField>)
    ensures Sorted(r)
    ensures multiset(r) == multiset(Present(available))
    ensures forall f :: f in r <==> Some(f) in available
  {
    var r := SortFields(Present(available));
    assert forall f :: f in r <==> f in multiset(r);
    r
  }
}
