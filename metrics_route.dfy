/** The mock metrics endpoint `GET /api/metrics`: query validation, the field
    list parser and the synthetic series generator. */
module MetricsRoute {
  import opened Wrappers
  import opened Text
  import opened JsValues
  import opened MetricFields
  import Prng

  /** 1000 * 60 * 5 milliseconds: the shortest step and the unit of the target count. */
  const FiveMinutes: int := 300000
  /** 24 steps of five minutes: from this range on the step exceeds five minutes. */
  const TwoHours: int := 7200000

  function Max(a: int, b: int): int { if a >= b then a else b }
  function Min(a: int, b: int): int { if a <= b then a else b }

  /** `parseTimestamp`: an absent or empty parameter is missing; otherwise the
      parameter is read with `Number` and kept only when finite. */
  function ParseTimestamp(value: Option<string>): (r: Option<int>)
    ensures value.None? || value == Some("") ==> r.None?
    ensures r.Some? ==> value.Some? && NumberOf(value.value) == Finite(r.value)
    ensures value.Some? && value.value != "" && NumberOf(value.value).Finite? ==> r.Some?
  {
    if value.None? || value.value == "" then None
    else if NumberOf(value.value).Finite? then Some(NumberOf(value.value).value)
    else None
  }

  /** An integer written in decimal, as the client's query string carries it,
      parses back to itself. */
  lemma ParseTimestampOfDecimal(n: int)
    ensures ParseTimestamp(Some(IntToDecimal(n))) == Some(n)
  {
    NumberOfDecimal(n);
  }

  /** A non-empty parameter of blanks is not missing: `Number` reads it as 0. */
  lemma BlankTimestampIsZero(s: string)
    requires s != "" && IsBlank(s)
    ensures ParseTimestamp(Some(s)) == Some(0)
  {
  }

  /** The field one piece names after `trim().toUpperCase()`, as a list of
      zero or one fields. */
  function PieceField(piece: string): seq<MetricField> {
    match FromName(ToUpper(Trim(piece)))
    case Some(f) => [f]
    case None => []
  }

  /** The valid names among the pieces, each trimmed and upper-cased, in order,
      with duplicates kept. */
  function RequestedFields(pieces: seq<string>): (r: seq<MetricField>)
    ensures |r| <= |pieces|
    ensures pieces == [] ==> r == []
    decreases |pieces|
  {
    if |pieces| == 0 then [] else PieceField(pieces[0]) + RequestedFields(pieces[1..])
  }

  /** One piece in front contributes its own field, if any, in front. */
  lemma RequestedFieldsCons(p: string, rest: seq<string>)
    ensures RequestedFields([p] + rest) == PieceField(p) + RequestedFields(rest)
  {
    assert ([p] + rest)[0] == p && ([p] + rest)[1..] == rest;
  }

  /** The valid names of two runs of pieces are those of each run, in order:
      the filter neither reorders nor drops a valid name. */
  lemma {:induction false} RequestedFieldsAppend(a: seq<string>, b: seq<string>)
    ensures RequestedFields(a + b) == RequestedFields(a) + RequestedFields(b)
    decreases |a|
  {
    if |a| > 0 {
      assert a + b == [a[0]] + (a[1..] + b);
      assert a == [a[0]] + a[1..];
      RequestedFieldsCons(a[0], a[1..] + b);
      RequestedFieldsCons(a[0], a[1..]);
      RequestedFieldsAppend(a[1..], b);
    } else {
      assert a + b == b;
    }
  }

  /** `parseFields`: never empty; an absent or empty parameter, or one naming no
      valid field, gives all five fields in declaration order; otherwise the
      valid names in the caller's order. */
  function ParseFields(value: Option<string>): (r: seq<MetricField>)
    ensures |r| > 0
    ensures value.None? || value == Some("") ==> r == AllFields
    ensures value.Some? && RequestedFields(Split(value.value, ',')) == [] ==> r == AllFields
    ensures value.Some? && value.value != "" && RequestedFields(Split(value.value, ',')) != [] ==>
              r == RequestedFields(Split(value.value, ','))
  {
    if value.None? || value.value == "" then AllFields
    else
      var requested := RequestedFields(Split(value.value, ','));
      if |requested| > 0 then requested else AllFields
  }

  /** The wire names of a list of fields. */
  function Names(fields: seq<MetricField>): (r: seq<string>)
    ensures |r| == |fields| && forall k | 0 <= k < |fields| :: r[k] == Name(fields[k])
  {
    seq(|fields|, k requires 0 <= k < |fields| => Name(fields[k]))
  }

  /** Each wire name is already trimmed and upper-case, so it parses to its field. */
  lemma NameParses(f: MetricField)
    ensures FromName(ToUpper(Trim(Name(f)))) == Some(f)
  {
    var s := Name(f);
    assert |s| > 0 && !IsWhitespace(s[0]) && !IsWhitespace(s[|s| - 1]);
    assert forall i | 0 <= i < |s| :: !('a' <= s[i] <= 'z');
    NormalizedName(s);
  }

  lemma {:induction false} RequestedFieldsOfNames(fields: seq<MetricField>)
    ensures RequestedFields(Names(fields)) == fields
    decreases |fields|
  {
    if |fields| > 0 {
      var names := Names(fields);
      assert names[1..] == Names(fields[1..]);
      RequestedFieldsOfNames(fields[1..]);
      NameParses(fields[0]);
      assert names[0] == Name(fields[0]);
      assert FromName(ToUpper(Trim(names[0]))) == Some(fields[0]);
      assert RequestedFields(names) == [fields[0]] + RequestedFields(names[1..]);
      assert [fields[0]] + fields[1..] == fields;
    }
  }

  /** No wire name holds a comma. */
  lemma NamesLackComma(fields: seq<MetricField>)
    ensures forall k | 0 <= k < |Names(fields)| :: ',' !in Names(fields)[k]
  {
    var names := Names(fields);
    forall k | 0 <= k < |names| ensures ',' !in names[k] {
      assert names[k] == Name(fields[k]);
    }
  }

  /** Joining at least one wire name gives a non-empty parameter. */
  lemma JoinedNamesNotEmpty(fields: seq<MetricField>)
    requires |fields| > 0
    ensures Join(Names(fields), ',') != ""
  {
    var names := Names(fields);
    if |names| == 1 {
      assert Join(names, ',') == Name(fields[0]);
    } else {
      assert Join(names, ',')[..|names[0]|] == names[0];
    }
  }

  /** The round trip with the client, which joins the selected fields with commas:
      any non-empty list of fields, in any order and with duplicates, comes back
      unchanged. */
  lemma ParseFieldsOfJoin(fields: seq<MetricField>)
    requires |fields| > 0
    ensures ParseFields(Some(Join(Names(fields), ','))) == fields
  {
    NamesLackComma(fields);
    SplitJoin(Names(fields), ',');
    RequestedFieldsOfNames(fields);
    JoinedNamesNotEmpty(fields);
  }

  /** `Math.max(to - from, 1)`: the length of the range, at least 1. */
  function RangeOf(from: int, to: int): (range: int)
    ensures range >= 1 && (to > from ==> range == to - from)
  {
    Max(to - from, 1)
  }

  /** The target number of samples of a range is only a target: it lies in [24, 96]. */
  function PointTarget(from: int, to: int): (pointCount: int)
    ensures 24 <= pointCount <= 96
  {
    Min(96, Max(24, RangeOf(from, to) / FiveMinutes))
  }

  /** The sampling cadence is never shorter than five minutes. */
  function StepOf(from: int, to: int): (step: int)
    ensures step >= FiveMinutes
  {
    Max(FiveMinutes, RangeOf(from, to) / PointTarget(from, to))
  }

  /** The sum of the character codes of `s`, as `reduce` adds them from the left. */
  function CharCodeSum(s: string): (r: int)
    ensures r >= 0
    decreases |s|
  {
    if |s| == 0 then 0 else CharCodeSum(s[..|s| - 1]) + s[|s| - 1] as int
  }

  /** The seed: the dataset name's character codes plus both ends of the range. */
  function SeedOf(dataset: string, from: int, to: int): int {
    CharCodeSum(dataset) + from + to
  }

  /** The ranges [-2147483743 - k * 2147483647, 0] of dataset `a` all give seeds
      that the normalisation as written sends to state 0. */
  lemma ZeroSeedRanges(k: nat)
    ensures Prng.NormalizeSeedAsWritten(SeedOf("a", -(Prng.Modulus - 1) - k * Prng.Modulus - 97, 0)) == 0
  {
    assert CharCodeSum("a") == 97 by {
      assert "a"[..0] == "";
    }
    Prng.ZeroSeedClass(k);
  }

  /** The per-field base values of the synthetic series. */
  function Base(f: MetricField): int {
    match f
    case REQUESTS => 1200
    case ERRORS => 30
    case P50_LATENCY => 110
    case P95_LATENCY => 240
    case P99_LATENCY => 380
  }

  /** `Math.round(base * noise * trend)` as a function of the base value, the
      numerator of the sample, the offset `ts - from` and the range; its
      floating-point definition is not part of the model. */
  type ValueFormula = (int, int, int, int) -> int

  /** The value of one field: the formula, clamped below at 0 by `Math.max(0, ...)`. */
  function FieldValue(f: MetricField, draw: int, offset: int, range: int, formula: ValueFormula): int {
    Max(0, formula(Base(f), draw, offset, range))
  }

  /** The `values` object of one point whose first draw is number `first` of the
      generator: entry number j of `fields` takes draw `first + j`, and a field
      listed twice keeps the value written last. */
  function PointValues(fields: seq<MetricField>, start: int, first: nat, offset: int, range: int,
                       formula: ValueFormula): map<MetricField, int>
    decreases |fields|
  {
    if |fields| == 0 then map[]
    else
      var last := |fields| - 1;
      PointValues(fields[..last], start, first, offset, range, formula)[
        fields[last] := FieldValue(fields[last], Prng.Draw(start, first + last), offset, range, formula)]
  }

  datatype MetricPoint = MetricPoint(timestamp: int, values: map<MetricField, int>)

  /** The number of timestamps `from, from + step, ...` that do not exceed `to`. */
  function PointCount(from: int, to: int): nat {
    if to < from then 0 else (to - from) / StepOf(from, to) + 1
  }

  /** The generator the series draws from starts here. */
  function StartState(dataset: string, from: int, to: int): int {
    Prng.NormalizeSeed(SeedOf(dataset, from, to))
  }

  /** Point number k of the series: it sits k steps after `from` and reads the
      k-th block of |fields| draws. */
  function PointAt(dataset: string, from: int, to: int, fields: seq<MetricField>, formula: ValueFormula,
                   k: nat): MetricPoint {
    var step := StepOf(from, to);
    MetricPoint(from + k * step,
                PointValues(fields, StartState(dataset, from, to), k * |fields|, k * step, RangeOf(from, to), formula))
  }

  /** The series `generatePoints` returns. */
  function Points(dataset: string, from: int, to: int, fields: seq<MetricField>, formula: ValueFormula)
    : (points: seq<MetricPoint>)
    ensures |points| == PointCount(from, to)
  {
    seq(PointCount(from, to), k requires 0 <= k => PointAt(dataset, from, to, fields, formula, k))
  }

  /** The series depends on the dataset only through the seed: two datasets
      whose character codes add up to the same sum get the same points. */
  lemma SameSeedSameSeries(d1: string, d2: string, from: int, to: int, fields: seq<MetricField>,
                           formula: ValueFormula)
    requires CharCodeSum(d1) == CharCodeSum(d2)
    ensures Points(d1, from, to, fields, formula) == Points(d2, from, to, fields, formula)
  {
    assert StartState(d1, from, to) == StartState(d2, from, to);
    var p1 := Points(d1, from, to, fields, formula);
    var p2 := Points(d2, from, to, fields, formula);
    assert forall k | 0 <= k < |p1| :: p1[k] == PointAt(d1, from, to, fields, formula, k) == p2[k];
  }

  lemma LessByFactor(a: int, b: int, c: int)
    requires c > 0 && a * c < b * c
    ensures a < b
  {
  }

  /** A multiple of `b` not above `d` bounds the quotient `d / b`. */
  lemma BelowDiv(a: int, b: int, d: int)
    requires b > 0 && a * b <= d
    ensures a <= d / b
  {
    var q := d / b;
    assert d < (q + 1) * b;
    LessByFactor(a, q + 1, b);
  }

  lemma MulSucc(a: int, b: int)
    ensures (a + 1) * b == a * b + b
  {
  }

  lemma MulMonotone(a: int, b: int, c: int)
    requires 0 <= a <= b && c >= 0
    ensures a * c <= b * c
  {
  }

  /** The quotient of `d` by `step` is the `i` whose multiples bracket `d`. */
  lemma DivIsCount(d: int, step: int, i: int)
    requires step > 0 && 0 <= i * step <= d < (i + 1) * step
    ensures d / step == i
  {
    var q := d / step;
    assert q * step <= d < (q + 1) * step;
    LessByFactor(q, i + 1, step);
    LessByFactor(i, q + 1, step);
  }

  /** One more entry of `fields` adds the value of its own draw. */
  lemma PointValuesSnoc(fields: seq<MetricField>, j: nat, start: int, first: nat, offset: int, range: int,
                        formula: ValueFormula)
    requires j < |fields|
    ensures PointValues(fields[..j + 1], start, first, offset, range, formula) ==
            PointValues(fields[..j], start, first, offset, range, formula)[
              fields[j] := FieldValue(fields[j], Prng.Draw(start, first + j), offset, range, formula)]
  {
    assert fields[..j + 1][..j] == fields[..j];
  }

  /** The inner loop of `generatePoints`: one sample per entry of `fields`, in
      list order, from the generator that has made `first` draws since `start`. */
  method SampleValues(rand: Prng.Generator, fields: seq<MetricField>, offset: int, range: int,
                      formula: ValueFormula, ghost start: int, ghost first: nat)
    returns (values: map<MetricField, int>)
    requires rand.Valid() && rand.state == Prng.Advance(start, first)
    modifies rand
    ensures rand.Valid() && rand.state == Prng.Advance(start, first + |fields|)
    ensures values == PointValues(fields, start, first, offset, range, formula)
  {
    values := map[];
    var j := 0;
    while j < |fields|
      invariant 0 <= j <= |fields|
      invariant rand.Valid() && rand.state == Prng.Advance(start, first + j)
      invariant values == PointValues(fields[..j], start, first, offset, range, formula)
    {
      var sample := rand.Next();
      assert rand.state == Prng.Advance(start, first + j + 1);
      assert sample == Prng.Draw(start, first + j);
      PointValuesSnoc(fields, j, start, first, offset, range, formula);
      values := values[fields[j] := FieldValue(fields[j], sample, offset, range, formula)];
      j := j + 1;
    }
    assert fields[..j] == fields;
  }

  /** The point the loop builds at its i-th turn is point number i. */
  lemma NextPoint(dataset: string, from: int, to: int, fields: seq<MetricField>, formula: ValueFormula,
                  i: nat, ts: int, values: map<MetricField, int>)
    requires ts == from + i * StepOf(from, to)
    requires values == PointValues(fields, StartState(dataset, from, to), i * |fields|, ts - from,
                                   RangeOf(from, to), formula)
    ensures MetricPoint(ts, values) == PointAt(dataset, from, to, fields, formula, i)
  {
  }

  /** A correct prefix of the series followed by the next point is a longer
      correct prefix. */
  lemma ExtendSeries(dataset: string, from: int, to: int, fields: seq<MetricField>, formula: ValueFormula,
                     points: seq<MetricPoint>, p: MetricPoint)
    requires forall k | 0 <= k < |points| :: points[k] == PointAt(dataset, from, to, fields, formula, k)
    requires p == PointAt(dataset, from, to, fields, formula, |points|)
    ensures forall k | 0 <= k < |points| + 1 :: (points + [p])[k] == PointAt(dataset, from, to, fields, formula, k)
  {
  }

  /** One turn of the outer loop of `generatePoints` keeps its invariants: the
      point built at timestamp `ts` from the next |fields| draws is the next
      point of the series. */
  lemma LoopStep(dataset: string, from: int, to: int, fields: seq<MetricField>, formula: ValueFormula,
                 points: seq<MetricPoint>, ts: int, values: map<MetricField, int>)
    requires ts == from + |points| * StepOf(from, to) && ts <= to
    requires forall k | 0 <= k < |points| :: points[k] == PointAt(dataset, from, to, fields, formula, k)
    requires values == PointValues(fields, StartState(dataset, from, to), |points| * |fields|, ts - from,
                                   RangeOf(from, to), formula)
    ensures ts + StepOf(from, to) == from + (|points| + 1) * StepOf(from, to)
    ensures |points| * |fields| + |fields| == (|points| + 1) * |fields|
    ensures forall k | 0 <= k < |points| + 1 ::
              (points + [MetricPoint(ts, values)])[k] == PointAt(dataset, from, to, fields, formula, k)
  {
    MulSucc(|points|, |fields|);
    MulSucc(|points|, StepOf(from, to));
    NextPoint(dataset, from, to, fields, formula, |points|, ts, values);
    ExtendSeries(dataset, from, to, fields, formula, points, MetricPoint(ts, values));
  }

  /** When the outer loop stops, it has built the whole series. */
  lemma LoopExit(dataset: string, from: int, to: int, fields: seq<MetricField>, formula: ValueFormula,
                 points: seq<MetricPoint>, ts: int)
    requires ts == from + |points| * StepOf(from, to) && ts > to
    requires |points| > 0 ==> from + (|points| - 1) * StepOf(from, to) <= to
    requires from <= to ==> |points| > 0
    requires forall k | 0 <= k < |points| :: points[k] == PointAt(dataset, from, to, fields, formula, k)
    ensures points == Points(dataset, from, to, fields, formula)
  {
    var step := StepOf(from, to);
    if |points| > 0 {
      MulSucc(|points| - 1, step);
      DivIsCount(to - from, step, |points| - 1);
    }
    assert |points| == PointCount(from, to);
  }

  /** `generatePoints`: walks `ts` from `from` while `ts <= to`, drawing one
      sample per entry of `fields` in list order for each timestamp. */
  method GeneratePoints(dataset: string, from: int, to: int, fields: seq<MetricField>, formula: ValueFormula)
    returns (points: seq<MetricPoint>)
    ensures points == Points(dataset, from, to, fields, formula)
  {
    var range := Max(to - from, 1);
    var pointCount := Min(96, Max(24, range / FiveMinutes));
    var step := Max(FiveMinutes, range / pointCount);
    assert range == RangeOf(from, to) && step == StepOf(from, to);
    var rand := new Prng.Generator(CharCodeSum(dataset) + from + to);
    ghost var start := rand.state;
    assert start == StartState(dataset, from, to);
    var n := |fields|;
    points := [];
    var ts := from;
    while ts <= to
      invariant fresh(rand) && rand.Valid()
      invariant ts == from + |points| * step
      invariant rand.state == Prng.Advance(start, |points| * n)
      invariant forall k | 0 <= k < |points| :: points[k] == PointAt(dataset, from, to, fields, formula, k)
      invariant |points| > 0 ==> from + (|points| - 1) * step <= to
      invariant from <= to ==> ts > from || |points| == 0
      invariant |points| == 0 <==> ts == from
      decreases (to - ts)
    {
      var values := SampleValues(rand, fields, ts - from, range, formula, start, |points| * n);
      LoopStep(dataset, from, to, fields, formula, points, ts, values);
      points := points + [MetricPoint(ts, values)];
      ts := ts + step;
    }
    LoopExit(dataset, from, to, fields, formula, points, ts);
  }

  /** For any range `to > from`, between 1 and 97 points are emitted: the target
      [24, 96] does not bound the count. */
  lemma PointCountBounds(from: int, to: int)
    requires to > from
    ensures 1 <= PointCount(from, to) <= 97
  {
    if to - from >= TwoHours {
      PointCountLongRange(from, to);
    } else {
      PointCountShortRange(from, to);
    }
  }

  /** A range of at least two hours emits one point more than the target. */
  lemma PointCountLongRange(from: int, to: int)
    requires to - from >= TwoHours
    ensures StepOf(from, to) == (to - from) / PointTarget(from, to)
    ensures PointCount(from, to) == PointTarget(from, to) + 1
  {
    var d := to - from;
    var pc := PointTarget(from, to);
    var t := d / FiveMinutes;
    assert t >= 24;
    assert pc <= t;
    assert pc * FiveMinutes <= t * FiveMinutes <= d;
    var q := d / pc;
    BelowDiv(FiveMinutes, pc, d);
    assert StepOf(from, to) == q;
    var r := d % pc;
    assert d == q * pc + r && 0 <= r < pc;
    assert pc * q <= d < (pc + 1) * q;
    DivIsCount(d, q, pc);
  }

  /** A range under two hours steps by five minutes and emits at most 24 points. */
  lemma PointCountShortRange(from: int, to: int)
    requires 0 < to - from < TwoHours
    ensures StepOf(from, to) == FiveMinutes
    ensures PointCount(from, to) == (to - from) / FiveMinutes + 1 <= 24
  {
    var d := to - from;
    assert PointTarget(from, to) == 24;
    assert d / 24 < FiveMinutes;
  }

  /** Point number k sits k steps after `from`. */
  lemma PointTimestamp(dataset: string, from: int, to: int, fields: seq<MetricField>, formula: ValueFormula, k: nat)
    requires k < PointCount(from, to)
    ensures |Points(dataset, from, to, fields, formula)| == PointCount(from, to)
    ensures Points(dataset, from, to, fields, formula)[k].timestamp == from + k * StepOf(from, to)
  {
  }

  /** The timestamps start at `from`, are one step apart, never pass `to`, and
      the next one would. */
  lemma PointsSpacing(dataset: string, from: int, to: int, fields: seq<MetricField>, formula: ValueFormula)
    requires to >= from
    ensures var p := Points(dataset, from, to, fields, formula);
            && |p| == PointCount(from, to) >= 1
            && p[0].timestamp == from
            && (forall k | 0 <= k < |p| :: p[k].timestamp <= to)
            && (forall k | 0 <= k < |p| - 1 :: p[k + 1].timestamp - p[k].timestamp == StepOf(from, to))
            && from + |p| * StepOf(from, to) > to
  {
    var p := Points(dataset, from, to, fields, formula);
    var step := StepOf(from, to);
    var d := to - from;
    var c := d / step;
    assert |p| == c + 1;
    assert c * step <= d < (c + 1) * step;
    PointTimestamp(dataset, from, to, fields, formula, 0);
    PointsWithinTo(dataset, from, to, fields, formula);
    PointsStepApart(dataset, from, to, fields, formula);
  }

  lemma PointsWithinTo(dataset: string, from: int, to: int, fields: seq<MetricField>, formula: ValueFormula)
    requires to >= from
    ensures var p := Points(dataset, from, to, fields, formula);
            forall k | 0 <= k < |p| :: p[k].timestamp <= to
  {
    var p := Points(dataset, from, to, fields, formula);
    var step := StepOf(from, to);
    var c := (to - from) / step;
    assert |p| == c + 1;
    assert c * step <= to - from;
    forall k | 0 <= k < |p| ensures p[k].timestamp <= to {
      PointTimestamp(dataset, from, to, fields, formula, k);
      MulMonotone(k, c, step);
    }
  }

  lemma PointsStepApart(dataset: string, from: int, to: int, fields: seq<MetricField>, formula: ValueFormula)
    requires to >= from
    ensures var p := Points(dataset, from, to, fields, formula);
            forall k | 0 <= k < |p| - 1 :: p[k + 1].timestamp - p[k].timestamp == StepOf(from, to)
  {
    var p := Points(dataset, from, to, fields, formula);
    var step := StepOf(from, to);
    forall k | 0 <= k < |p| - 1 ensures p[k + 1].timestamp - p[k].timestamp == step {
      PointTimestamp(dataset, from, to, fields, formula, k);
      PointTimestamp(dataset, from, to, fields, formula, k + 1);
      assert (k + 1) * step == k * step + step;
    }
  }

  /** Each point of a series carries exactly the requested fields. */
  lemma PointsKeys(dataset: string, from: int, to: int, fields: seq<MetricField>, formula: ValueFormula)
    ensures forall k | 0 <= k < |Points(dataset, from, to, fields, formula)| ::
              Points(dataset, from, to, fields, formula)[k].values.Keys == set f | f in fields
  {
    var p := Points(dataset, from, to, fields, formula);
    var step := StepOf(from, to);
    forall k | 0 <= k < |p| ensures p[k].values.Keys == set f | f in fields {
      assert p[k] == PointAt(dataset, from, to, fields, formula, k);
      PointValuesKeys(fields, StartState(dataset, from, to), k * |fields|, k * step, RangeOf(from, to), formula);
    }
  }

  /** Each point carries exactly the requested fields, and no value is negative. */
  lemma {:induction false} PointValuesKeys(fields: seq<MetricField>, start: int, first: nat, offset: int, range: int,
                                           formula: ValueFormula)
    ensures PointValues(fields, start, first, offset, range, formula).Keys == set f | f in fields
    ensures forall f | f in PointValues(fields, start, first, offset, range, formula) ::
              PointValues(fields, start, first, offset, range, formula)[f] >= 0
    decreases |fields|
  {
    if |fields| > 0 {
      var last := |fields| - 1;
      PointValuesKeys(fields[..last], start, first, offset, range, formula);
      assert fields == fields[..last] + [fields[last]];
      assert (set f | f in fields) == (set f | f in fields[..last]) + {fields[last]};
    }
  }

  /** The value of field entry number j is computed from draw `first + j`, unless
      the same field is listed again later in `fields`. */
  lemma {:induction false} PointValueIsItsDraw(fields: seq<MetricField>, start: int, first: nat, offset: int,
                                               range: int, formula: ValueFormula, j: nat)
    requires j < |fields| && forall j' | j < j' < |fields| :: fields[j'] != fields[j]
    ensures fields[j] in PointValues(fields, start, first, offset, range, formula)
    ensures PointValues(fields, start, first, offset, range, formula)[fields[j]] ==
            FieldValue(fields[j], Prng.Draw(start, first + j), offset, range, formula)
    decreases |fields|
  {
    var last := |fields| - 1;
    if j < last {
      assert fields[..last][j] == fields[j];
      PointValueIsItsDraw(fields[..last], start, first, offset, range, formula, j);
    }
  }

  /** The query parameters of a metrics request; `None` is an absent parameter. */
  datatype MetricsQuery = MetricsQuery(dataset: Option<string>, from: Option<string>, to: Option<string>,
                                       fields: Option<string>)

  datatype MetricsResponse =
    | Rejected(status: int, message: string)
    | Served(dataset: string, from: int, to: int, fields: seq<MetricField>, points: seq<MetricPoint>,
             annotations: seq<Json>)

  /** `GET`: the three validation rules in order, then the series. */
  function Get(q: MetricsQuery, formula: ValueFormula): (r: MetricsResponse)
    ensures (q.dataset.None? || Trim(q.dataset.value) == "") ==>
              r == Rejected(400, "dataset is required")
    ensures q.dataset.Some? && Trim(q.dataset.value) != "" &&
            (ParseTimestamp(q.from).None? || ParseTimestamp(q.to).None?) ==>
              r == Rejected(400, "from and to are required timestamps (ms)")
    ensures q.dataset.Some? && Trim(q.dataset.value) != "" &&
            ParseTimestamp(q.from).Some? && ParseTimestamp(q.to).Some? &&
            ParseTimestamp(q.to).value <= ParseTimestamp(q.from).value ==>
              r == Rejected(400, "to must be greater than from")
    ensures r.Served? <==> q.dataset.Some? && Trim(q.dataset.value) != "" &&
                           ParseTimestamp(q.from).Some? && ParseTimestamp(q.to).Some? &&
                           ParseTimestamp(q.from).value < ParseTimestamp(q.to).value
    ensures r.Served? ==> r.dataset == Trim(q.dataset.value) && r.from == ParseTimestamp(q.from).value &&
                          r.to == ParseTimestamp(q.to).value && r.fields == ParseFields(q.fields) &&
                          r.points == Points(r.dataset, r.from, r.to, r.fields, formula) &&
                          r.annotations == []
  {
    var fields := ParseFields(q.fields);
    if q.dataset.None? || Trim(q.dataset.value) == "" then Rejected(400, "dataset is required")
    else
      var dataset := Trim(q.dataset.value);
      var from := ParseTimestamp(q.from);
      var to := ParseTimestamp(q.to);
      if from.None? || to.None? then Rejected(400, "from and to are required timestamps (ms)")
      else if to.value <= from.value then Rejected(400, "to must be greater than from")
      else Served(dataset, from.value, to.value, fields, Points(dataset, from.value, to.value, fields, formula), [])
  }

  /** What a served response guarantees: a valid range, a non-empty field list,
      between 1 and 97 evenly spaced points, each with exactly the listed fields. */
  lemma ServedShape(q: MetricsQuery, formula: ValueFormula)
    requires Get(q, formula).Served?
    ensures var r := Get(q, formula);
            && r.from < r.to && |r.fields| > 0 && 1 <= |r.points| <= 97
            && r.points[0].timestamp == r.from
            && forall k | 0 <= k < |r.points| ::
                 r.points[k].timestamp <= r.to && r.points[k].values.Keys == set f | f in r.fields
  {
    var r := Get(q, formula);
    var p := Points(r.dataset, r.from, r.to, r.fields, formula);
    assert r.points == p;
    PointCountBounds(r.from, r.to);
    PointsSpacing(r.dataset, r.from, r.to, r.fields, formula);
    PointsKeys(r.dataset, r.from, r.to, r.fields, formula);
  }
}
