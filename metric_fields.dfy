/** The closed set of metric fields shared by the metrics endpoint and the client,
    and the order Array.prototype.sort puts them in. */
module MetricFields {
  import opened Wrappers

  datatype MetricField = REQUESTS | ERRORS | P50_LATENCY | P95_LATENCY | P99_LATENCY

  /** The five fields in declaration order, the fallback list of the endpoint. */
  const AllFields: seq<MetricField> := [REQUESTS, ERRORS, P50_LATENCY, P95_LATENCY, P99_LATENCY]

  /** The wire name of a field. */
  function Name(f: MetricField): string {
    match f
    case REQUESTS => "REQUESTS"
    case ERRORS => "ERRORS"
    case P50_LATENCY => "P50_LATENCY"
    case P95_LATENCY => "P95_LATENCY"
    case P99_LATENCY => "P99_LATENCY"
  }

  /** `METRIC_FIELDS.includes(s)` together with the narrowing cast: the field whose
      name is exactly `s`, if there is one. */
  function FromName(s: string): (r: Option<MetricField>)
    ensures forall f :: r == Some(f) <==> Name(f) == s
  {
    if s == "REQUESTS" then Some(REQUESTS)
    else if s == "ERRORS" then Some(ERRORS)
    else if s == "P50_LATENCY" then Some(P50_LATENCY)
    else if s == "P95_LATENCY" then Some(P95_LATENCY)
    else if s == "P99_LATENCY" then Some(P99_LATENCY)
    else None
  }

  /** String `<` as `Array.prototype.sort` applies it when no comparator is given:
      lexicographic on character codes, a proper prefix coming first. */
  predicate StringLess(a: string, b: string)
    decreases |a|
  {
    |b| > 0 && (|a| == 0 || a[0] < b[0] || (a[0] == b[0] && StringLess(a[1..], b[1..])))
  }

  /** The position of a field in `sort` order: ERRORS, P50_LATENCY, P95_LATENCY,
      P99_LATENCY, REQUESTS. */
  function Rank(f: MetricField): nat {
    match f
    case ERRORS => 0
    case P50_LATENCY => 1
    case P95_LATENCY => 2
    case P99_LATENCY => 3
    case REQUESTS => 4
  }

  /** When two strings agree before index `k` and differ at `k`, the character at
      `k` decides `StringLess`. */
  lemma {:induction false} StringLessAt(a: string, b: string, k: nat)
    requires k < |a| && k < |b| && a[..k] == b[..k] && a[k] != b[k]
    ensures StringLess(a, b) <==> a[k] < b[k]
    decreases k
  {
    if k > 0 {
      assert a[0] == a[..k][0] == b[..k][0] == b[0];
      assert a[1..][..k - 1] == a[1..k] == a[..k][1..];
      assert b[1..][..k - 1] == b[1..k] == b[..k][1..];
      StringLessAt(a[1..], b[1..], k - 1);
    }
  }

  lemma {:induction false} StringLessIrreflexive(a: string)
    ensures !StringLess(a, a)
    decreases |a|
  {
    if |a| > 0 {
      StringLessIrreflexive(a[1..]);
    }
  }

  /** The first index at which the names of two distinct fields differ. */
  function NameDiffIndex(f: MetricField, g: MetricField): nat {
    if f.ERRORS? || f.REQUESTS? || g.ERRORS? || g.REQUESTS? then 0
    else if f.P50_LATENCY? || g.P50_LATENCY? then 1
    else 2
  }

  /** `Rank` is the order `sort` gives the wire names, and it tells fields apart. */
  lemma RankIsNameOrder(f: MetricField, g: MetricField)
    ensures Rank(f) < Rank(g) <==> StringLess(Name(f), Name(g))
    ensures Rank(f) == Rank(g) <==> f == g
  {
    if f == g {
      StringLessIrreflexive(Name(f));
    } else {
      var k := NameDiffIndex(f, g);
      var a, b := Name(f), Name(g);
      DiffIndexDecides(f, g);
      assert a[..k] == b[..k];
      StringLessAt(a, b, k);
    }
  }

  /** Two distinct names agree before `NameDiffIndex` and differ there in the
      direction of `Rank`. */
  lemma DiffIndexDecides(f: MetricField, g: MetricField)
    requires f != g
    ensures NameDiffIndex(f, g) < |Name(f)| && NameDiffIndex(f, g) < |Name(g)|
    ensures forall i | 0 <= i < NameDiffIndex(f, g) :: Name(f)[i] == Name(g)[i]
    ensures Name(f)[NameDiffIndex(f, g)] != Name(g)[NameDiffIndex(f, g)]
    ensures Rank(f) < Rank(g) <==> Name(f)[NameDiffIndex(f, g)] < Name(g)[NameDiffIndex(f, g)]
  {
    match f
    case ERRORS =>
    case REQUESTS =>
    case P50_LATENCY =>
    case P95_LATENCY =>
    case P99_LATENCY =>
  }

  predicate Sorted(s: seq<MetricField>) {
    forall i, j | 0 <= i < j < |s| :: Rank(s[i]) <= Rank(s[j])
  }

  /** Inserts `f` into a sorted list after every entry that sorts below it. */
  function Insert(f: MetricField, s: seq<MetricField>): (r: seq<MetricField>)
    requires Sorted(s)
    ensures Sorted(r) && multiset(r) == multiset(s) + multiset{f}
    decreases |s|
  {
    if |s| == 0 then [f]
    else if Rank(f) <= Rank(s[0]) then
      ConsSorted(f, s);
      [f] + s
    else
      var rest := Insert(f, s[1..]);
      assert s == [s[0]] + s[1..];
      HeadBound(s, f, rest);
      ConsSorted(s[0], rest);
      [s[0]] + rest
  }

  /** Everything in `rest`, the tail of a sorted `s` plus a field ranked above
      its head, ranks at least as high as that head. */
  lemma HeadBound(s: seq<MetricField>, f: MetricField, rest: seq<MetricField>)
    requires |s| > 0 && Sorted(s) && Rank(s[0]) < Rank(f)
    requires multiset(rest) == multiset(s[1..]) + multiset{f}
    ensures forall x | x in rest :: Rank(s[0]) <= Rank(x)
  {
    forall x | x in rest ensures Rank(s[0]) <= Rank(x) {
      assert x in multiset(rest);
      if x != f {
        assert x in multiset(s[1..]);
        assert x in s[1..];
      }
    }
  }

  /** A field ranked at most as high as everything in a sorted list can go first. */
  lemma ConsSorted(x: MetricField, rest: seq<MetricField>)
    requires Sorted(rest) && forall y | y in rest :: Rank(x) <= Rank(y)
    ensures Sorted([x] + rest)
  {
    var r := [x] + rest;
    forall i, j | 0 <= i < j < |r| ensures Rank(r[i]) <= Rank(r[j]) {
      if i == 0 {
        assert r[j] == rest[j - 1];
        assert rest[j - 1] in rest;
      } else {
        assert r[i] == rest[i - 1] && r[j] == rest[j - 1];
      }
    }
  }

  /** `[...xs].sort()`: a sorted copy holding the same fields, duplicates included. */
  function SortFields(xs: seq<MetricField>): (r: seq<MetricField>)
    ensures Sorted(r) && multiset(r) == multiset(xs)
    decreases |xs|
  {
    if |xs| == 0 then []
    else
      assert xs == [xs[0]] + xs[1..];
      Insert(xs[0], SortFields(xs[1..]))
  }

  /** The first element of a non-empty sorted list has the least rank of all. */
  lemma SortedHeadLeast(a: seq<MetricField>, x: MetricField)
    requires Sorted(a) && x in multiset(a)
    ensures Rank(a[0]) <= Rank(x)
  {
    assert x in a;
  }

  /** Two sorted lists with the same elements are equal: sorting has one answer. */
  lemma {:induction false} SortedUnique(a: seq<MetricField>, b: seq<MetricField>)
    requires Sorted(a) && Sorted(b) && multiset(a) == multiset(b)
    ensures a == b
    decreases |a|
  {
    if |a| > 0 {
      assert |b| == |a| by {
        assert |multiset(b)| == |multiset(a)|;
      }
      assert a[0] in multiset(a);
      assert b[0] in multiset(b);
      SortedHeadLeast(b, a[0]);
      SortedHeadLeast(a, b[0]);
      RankIsNameOrder(a[0], b[0]);
      assert a == [a[0]] + a[1..];
      assert b == [b[0]] + b[1..];
      assert multiset(a[1..]) == multiset(a) - multiset{a[0]};
      assert multiset(b[1..]) == multiset(b) - multiset{b[0]};
      SortedUnique(a[1..], b[1..]);
    }
  }

  /** Any permutation of the same fields sorts to the same list. */
  lemma SortPermutationInvariant(xs: seq<MetricField>, ys: seq<MetricField>)
    requires multiset(xs) == multiset(ys)
    ensures SortFields(xs) == SortFields(ys)
  {
    SortedUnique(SortFields(xs), SortFields(ys));
  }
}
