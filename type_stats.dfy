/** Per-type statistics of evaluation/all_type_score.py: `calculate_average`
    and `calculate_type_statistics`. Records are grouped by their `type` in a
    `defaultdict(list)`, whose keys keep the order in which each type first
    appears; the groups are then listed by decreasing size with Python's
    stable `sorted(..., reverse=True)`, so groups of equal size keep that
    first-appearance order. A report line becomes a `TypeStat` value. */
module TypeScore {
  import opened Records

  /** `calculate_average(data_list)`: the mean `score` and the mean
      `f1_score`, both 0 for an empty list. */
  function CalculateAverage(data: seq<Record>): (real, real)
    requires NumFields(data, "score") && NumFields(data, "f1_score")
  {
    (Mean(data, "score"), Mean(data, "f1_score"))
  }

  /** Scores between 0 and 1 give averages between 0 and 1. */
  lemma AverageInUnit(data: seq<Record>)
    requires UnitFields(data, "score") && UnitFields(data, "f1_score")
    ensures 0.0 <= CalculateAverage(data).0 <= 1.0
    ensures 0.0 <= CalculateAverage(data).1 <= 1.0
  {
    MeanUnitBounds(data, "score");
    MeanUnitBounds(data, "f1_score");
  }

  // ---------------------------------------------------------------------------
  // Grouping by type
  // ---------------------------------------------------------------------------

  /** Every record has a hashable `type`. */
  predicate Typed(data: seq<Record>) {
    forall i :: 0 <= i < |data| ==> "type" in data[i] && IsKey(data[i]["type"])
  }

  /** What `calculate_type_statistics` reads of every record. */
  predicate StatsReady(data: seq<Record>) {
    Typed(data) && NumFields(data, "score") && NumFields(data, "f1_score")
  }

  /** Some record of `data` has type `t`. */
  predicate HasType(data: seq<Record>, t: Json) {
    exists i :: 0 <= i < |data| && "type" in data[i] && data[i]["type"] == t
  }

  /** The keys of `type_stats` in their order: each type once, in order of
      first appearance. */
  function Types(data: seq<Record>): seq<Json>
    requires Typed(data)
    decreases |data|
  {
    if data == [] then []
    else
      var ts := Types(data[..|data| - 1]);
      var t := data[|data| - 1]["type"];
      if t in ts then ts else ts + [t]
  }

  /** `type_stats[t]`: the records of type `t`, in their order. */
  function Group(data: seq<Record>, t: Json): seq<Record>
    requires Typed(data)
    decreases |data|
  {
    if data == [] then []
    else
      Group(data[..|data| - 1], t)
        + (if data[|data| - 1]["type"] == t then [data[|data| - 1]] else [])
  }

  /** A group paired with its type, as in `type_stats.items()`. */
  type Entry = (Json, seq<Record>)

  /** Each type of `ts` paired with its group, in the order of `ts`. */
  function EntriesFor(data: seq<Record>, ts: seq<Json>): seq<Entry>
    requires Typed(data)
    decreases |ts|
  {
    if ts == [] then []
    else EntriesFor(data, ts[..|ts| - 1]) + [(ts[|ts| - 1], Group(data, ts[|ts| - 1]))]
  }

  /** `type_stats.items()` in key order. */
  function Groups(data: seq<Record>): seq<Entry>
    requires Typed(data)
  {
    EntriesFor(data, Types(data))
  }

  lemma {:induction false} TypesMembers(data: seq<Record>)
    requires Typed(data)
    ensures forall t :: t in Types(data) <==> HasType(data, t)
    ensures forall i, j :: 0 <= i < j < |Types(data)| ==> Types(data)[i] != Types(data)[j]
    decreases |data|
  {
    if data != [] {
      var p := data[..|data| - 1];
      TypesMembers(p);
      forall t
        ensures t in Types(data) <==> HasType(data, t)
      {
        if HasType(p, t) {
          var i :| 0 <= i < |p| && "type" in p[i] && p[i]["type"] == t;
          assert data[i] == p[i];
        }
        if HasType(data, t) && t != data[|data| - 1]["type"] {
          var i :| 0 <= i < |data| && "type" in data[i] && data[i]["type"] == t;
          assert p[i] == data[i];
        }
      }
    }
  }

  /** The types seen in any prefix of the records come first, in the same
      order: types are listed in order of first appearance. */
  lemma {:induction false} TypesFirstAppearance(data: seq<Record>, k: nat)
    requires Typed(data) && k <= |data|
    ensures Typed(data[..k])
    ensures Types(data[..k]) <= Types(data)
    decreases |data| - k
  {
    if k < |data| {
      TypesFirstAppearance(data, k + 1);
      assert data[..k + 1][..k] == data[..k];
    } else {
      assert data[..k] == data;
    }
  }

  lemma HasTypeSnoc(data: seq<Record>, t: Json)
    requires data != []
    ensures HasType(data, t) <==>
              HasType(data[..|data| - 1], t) || ("type" in data[|data| - 1] && data[|data| - 1]["type"] == t)
  {
    var p := data[..|data| - 1];
    if HasType(p, t) {
      var i :| 0 <= i < |p| && "type" in p[i] && p[i]["type"] == t;
      assert data[i] == p[i];
    }
    if HasType(data, t) {
      var i :| 0 <= i < |data| && "type" in data[i] && data[i]["type"] == t;
      if i < |p| {
        assert p[i] == data[i];
      }
    }
  }

  /** A group holds exactly the records of its type. */
  lemma {:induction false} GroupMembers(data: seq<Record>, t: Json)
    requires Typed(data)
    ensures forall r :: r in Group(data, t) <==> r in data && r["type"] == t
    decreases |data|
  {
    if data != [] {
      var p, last := data[..|data| - 1], data[|data| - 1];
      GroupMembers(p, t);
      assert data == p + [last];
      assert forall r :: r in data <==> r in p || r == last;
    }
  }

  /** A group is empty exactly for a type that does not occur. */
  lemma {:induction false} GroupEmpty(data: seq<Record>, t: Json)
    requires Typed(data)
    ensures Group(data, t) == [] <==> !HasType(data, t)
    decreases |data|
  {
    if data != [] {
      GroupEmpty(data[..|data| - 1], t);
      HasTypeSnoc(data, t);
    }
  }

  // ---------------------------------------------------------------------------
  // Stable sort by decreasing group size
  // ---------------------------------------------------------------------------

  function Size(e: Entry): nat {
    |e.1|
  }

  predicate NonIncreasing(es: seq<Entry>) {
    forall i, j :: 0 <= i < j < |es| ==> Size(es[i]) >= Size(es[j])
  }

  /** The entries of size `n`, in their order. */
  function OfSize(es: seq<Entry>, n: nat): seq<Entry>
    decreases |es|
  {
    if es == [] then []
    else OfSize(es[..|es| - 1], n) + (if Size(es[|es| - 1]) == n then [es[|es| - 1]] else [])
  }

  /** Places `e` after every entry at least as large. */
  function Insert(es: seq<Entry>, e: Entry): seq<Entry>
    decreases |es|
  {
    if es == [] then [e]
    else if Size(es[0]) >= Size(e) then [es[0]] + Insert(es[1..], e)
    else [e] + es
  }

  /** `sorted(entries, key=lambda x: len(x[1]), reverse=True)` */
  function SortBySize(es: seq<Entry>): seq<Entry>
    decreases |es|
  {
    if es == [] then [] else Insert(SortBySize(es[..|es| - 1]), es[|es| - 1])
  }

  lemma {:induction false} OfSizeAppend(a: seq<Entry>, b: seq<Entry>, n: nat)
    ensures OfSize(a + b, n) == OfSize(a, n) + OfSize(b, n)
    decreases |b|
  {
    if b == [] {
      assert a + b == a;
    } else {
      assert (a + b)[..|a + b| - 1] == a + b[..|b| - 1];
      OfSizeAppend(a, b[..|b| - 1], n);
    }
  }

  lemma {:induction false} OfSizeAllSmaller(es: seq<Entry>, n: nat)
    requires forall i :: 0 <= i < |es| ==> Size(es[i]) < n
    ensures OfSize(es, n) == []
    decreases |es|
  {
    if es != [] {
      OfSizeAllSmaller(es[..|es| - 1], n);
    }
  }

  lemma {:induction false} InsertPermutes(es: seq<Entry>, e: Entry)
    ensures multiset(Insert(es, e)) == multiset(es) + multiset{e}
    decreases |es|
  {
    if es != [] && Size(es[0]) >= Size(e) {
      InsertPermutes(es[1..], e);
      assert es == [es[0]] + es[1..];
    }
  }

  lemma ConsNonIncreasing(x: Entry, rest: seq<Entry>)
    requires NonIncreasing(rest)
    requires forall j :: 0 <= j < |rest| ==> Size(rest[j]) <= Size(x)
    ensures NonIncreasing([x] + rest)
  {
    assert forall j :: 0 < j < |[x] + rest| ==> ([x] + rest)[j] == rest[j - 1];
  }

  lemma {:induction false} InsertBounded(es: seq<Entry>, e: Entry, m: nat)
    requires forall j :: 0 <= j < |es| ==> Size(es[j]) <= m
    requires Size(e) <= m
    ensures forall j :: 0 <= j < |Insert(es, e)| ==> Size(Insert(es, e)[j]) <= m
    decreases |es|
  {
    if es != [] && Size(es[0]) >= Size(e) {
      InsertBounded(es[1..], e, m);
      assert forall j :: 0 < j < |Insert(es, e)| ==> Insert(es, e)[j] == Insert(es[1..], e)[j - 1];
    }
  }

  lemma {:induction false} InsertSorted(es: seq<Entry>, e: Entry)
    requires NonIncreasing(es)
    ensures NonIncreasing(Insert(es, e))
    decreases |es|
  {
    if es != [] && Size(es[0]) >= Size(e) {
      InsertSorted(es[1..], e);
      InsertBounded(es[1..], e, Size(es[0]));
      ConsNonIncreasing(es[0], Insert(es[1..], e));
    } else if es != [] {
      ConsNonIncreasing(e, es);
    }
  }

  lemma NonIncreasingTail(es: seq<Entry>)
    requires NonIncreasing(es) && es != []
    ensures NonIncreasing(es[1..])
  {
  }

  lemma {:induction false} InsertStable(es: seq<Entry>, e: Entry, n: nat)
    requires NonIncreasing(es)
    ensures OfSize(Insert(es, e), n) == OfSize(es, n) + OfSize([e], n)
    decreases |es|
  {
    if es == [] {
      assert Insert(es, e) == [e];
    } else if Size(es[0]) >= Size(e) {
      var head, tail := [es[0]], es[1..];
      assert NonIncreasing(tail) by { NonIncreasingTail(es); }
      calc {
        OfSize(Insert(es, e), n);
        OfSize(head + Insert(tail, e), n);
        { OfSizeAppend(head, Insert(tail, e), n); }
        OfSize(head, n) + OfSize(Insert(tail, e), n);
        { InsertStable(tail, e, n); }
        OfSize(head, n) + (OfSize(tail, n) + OfSize([e], n));
        (OfSize(head, n) + OfSize(tail, n)) + OfSize([e], n);
        { OfSizeAppend(head, tail, n); assert es == head + tail; }
        OfSize(es, n) + OfSize([e], n);
      }
    } else {
      InsertFrontStable(es, e, n);
    }
  }

  /** An entry larger than the first of a sorted list goes in front without
      passing any entry of its own size. */
  lemma InsertFrontStable(es: seq<Entry>, e: Entry, n: nat)
    requires NonIncreasing(es)
    requires es != [] && Size(es[0]) < Size(e)
    ensures OfSize([e] + es, n) == OfSize(es, n) + OfSize([e], n)
  {
    OfSizeAppend([e], es, n);
    if n == Size(e) {
      assert forall i :: 0 <= i < |es| ==> Size(es[i]) <= Size(es[0]);
      OfSizeAllSmaller(es, n);
    } else {
      assert OfSize([e], n) == OfSize([], n) + [];
    }
  }

  /** The sort orders entries by non-increasing size, is a permutation, and
      is stable: the entries of each size keep their relative order. */
  lemma {:induction false} SortProperties(es: seq<Entry>)
    ensures NonIncreasing(SortBySize(es))
    ensures multiset(SortBySize(es)) == multiset(es)
    ensures forall n :: OfSize(SortBySize(es), n) == OfSize(es, n)
    decreases |es|
  {
    if es != [] {
      var p, e := es[..|es| - 1], es[|es| - 1];
      SortProperties(p);
      InsertSorted(SortBySize(p), e);
      InsertPermutes(SortBySize(p), e);
      assert es == p + [e];
      forall n ensures OfSize(SortBySize(es), n) == OfSize(es, n) {
        InsertStable(SortBySize(p), e, n);
        OfSizeAppend(p, [e], n);
      }
    }
  }

  // ---------------------------------------------------------------------------
  // The report lines
  // ---------------------------------------------------------------------------

  /** One report line `f"{type_key} {len(items)} {avg_score:.4f} {avg_f1_score:.4f}"`,
      with the numbers unformatted. */
  datatype TypeStat = TypeStat(typ: Json, count: nat, avgScore: real, avgF1: real)

  /** Every group's records carry numeric scores. */
  predicate EntriesScored(es: seq<Entry>) {
    forall e :: e in es ==> NumFields(e.1, "score") && NumFields(e.1, "f1_score")
  }

  /** The report line of one group. */
  function StatOf(e: Entry): TypeStat
    requires NumFields(e.1, "score") && NumFields(e.1, "f1_score")
  {
    var avg := CalculateAverage(e.1);
    TypeStat(e.0, |e.1|, avg.0, avg.1)
  }

  /** The report lines of the groups, in order. */
  function StatsOf(es: seq<Entry>): seq<TypeStat>
    requires EntriesScored(es)
  {
    seq(|es|, i requires 0 <= i < |es| => StatOf(es[i]))
  }

  lemma {:induction false} GroupScored(data: seq<Record>, t: Json, f: string)
    requires Typed(data) && NumFields(data, f)
    ensures NumFields(Group(data, t), f)
    decreases |data|
  {
    if data != [] {
      var p := data[..|data| - 1];
      GroupScored(p, t, f);
    }
  }

  lemma {:induction false} EntriesForShape(data: seq<Record>, ts: seq<Json>)
    requires Typed(data)
    ensures |EntriesFor(data, ts)| == |ts|
    ensures forall i :: 0 <= i < |ts| ==> EntriesFor(data, ts)[i] == (ts[i], Group(data, ts[i]))
    decreases |ts|
  {
    if ts != [] {
      EntriesForShape(data, ts[..|ts| - 1]);
    }
  }

  /** The groups are exactly the types paired with their records. */
  lemma GroupsMembers(data: seq<Record>)
    requires Typed(data)
    ensures |Groups(data)| == |Types(data)|
    ensures forall e :: e in Groups(data) <==> e.0 in Types(data) && e.1 == Group(data, e.0)
  {
    EntriesForShape(data, Types(data));
    forall e: Entry | e.0 in Types(data) && e.1 == Group(data, e.0)
      ensures e in Groups(data)
    {
      var i :| 0 <= i < |Types(data)| && Types(data)[i] == e.0;
      assert Groups(data)[i] == e;
    }
  }

  lemma SortedGroupsScored(data: seq<Record>)
    requires StatsReady(data)
    ensures EntriesScored(SortBySize(Groups(data)))
  {
    GroupsMembers(data);
    SortProperties(Groups(data));
    forall e | e in SortBySize(Groups(data))
      ensures NumFields(e.1, "score") && NumFields(e.1, "f1_score")
    {
      assert e in multiset(SortBySize(Groups(data)));
      GroupScored(data, e.0, "score");
      GroupScored(data, e.0, "f1_score");
    }
  }

  /** `calculate_type_statistics(data_list)` as its list of report lines: the
      groups, largest first, each with its size and average scores. */
  function TypeStats(data: seq<Record>): seq<TypeStat>
    requires StatsReady(data)
  {
    SortedGroupsScored(data);
    StatsOf(SortBySize(Groups(data)))
  }

  /** The sorted groups are still exactly the types paired with their
      records. */
  lemma SortedGroupsMembers(data: seq<Record>)
    requires Typed(data)
    ensures |SortBySize(Groups(data))| == |Types(data)|
    ensures forall e :: e in SortBySize(Groups(data)) <==> e.0 in Types(data) && e.1 == Group(data, e.0)
  {
    var g := Groups(data);
    GroupsMembers(data);
    SortProperties(g);
    assert |SortBySize(g)| == |g| by {
      assert |multiset(SortBySize(g))| == |multiset(g)|;
    }
    assert forall e :: e in SortBySize(g) <==> e in multiset(SortBySize(g));
    assert forall e :: e in g <==> e in multiset(g);
  }

  /** Every type that occurs has a report line. */
  lemma EveryTypeReported(data: seq<Record>)
    requires StatsReady(data)
    ensures |TypeStats(data)| == |Types(data)|
    ensures forall t :: t in Types(data) <==> HasType(data, t)
    ensures forall t :: t in Types(data) ==> exists i :: 0 <= i < |TypeStats(data)| && TypeStats(data)[i].typ == t
  {
    var sorted := SortBySize(Groups(data));
    SortedGroupsMembers(data);
    TypesMembers(data);
    forall t | t in Types(data)
      ensures exists i :: 0 <= i < |TypeStats(data)| && TypeStats(data)[i].typ == t
    {
      var i :| 0 <= i < |sorted| && sorted[i] == (t, Group(data, t));
      assert TypeStats(data)[i].typ == t;
    }
  }

  /** Each report line gives a type that occurs, the number of its records
      (at least one) and the averages of exactly those records. */
  lemma StatsAreGroups(data: seq<Record>)
    requires StatsReady(data)
    ensures forall i :: 0 <= i < |TypeStats(data)| ==>
              var line := TypeStats(data)[i];
              && line.typ in Types(data)
              && StatsReady(Group(data, line.typ))
              && line.count == |Group(data, line.typ)| > 0
              && (line.avgScore, line.avgF1) == CalculateAverage(Group(data, line.typ))
  {
    var sorted := SortBySize(Groups(data));
    SortedGroupsMembers(data);
    TypesMembers(data);
    forall i | 0 <= i < |TypeStats(data)|
      ensures var line := TypeStats(data)[i];
              && line.typ in Types(data)
              && StatsReady(Group(data, line.typ))
              && line.count == |Group(data, line.typ)| > 0
              && (line.avgScore, line.avgF1) == CalculateAverage(Group(data, line.typ))
    {
      var e := sorted[i];
      assert e in sorted;
      GroupEmpty(data, e.0);
      GroupTyped(data, e.0);
      GroupScored(data, e.0, "score");
      GroupScored(data, e.0, "f1_score");
    }
  }

  lemma {:induction false} GroupTyped(data: seq<Record>, t: Json)
    requires Typed(data)
    ensures Typed(Group(data, t))
    decreases |data|
  {
    if data != [] {
      GroupTyped(data[..|data| - 1], t);
    }
  }

  /** The report lists groups by non-increasing size. */
  lemma StatsNonIncreasing(data: seq<Record>)
    requires StatsReady(data)
    ensures forall i, j :: 0 <= i < j < |TypeStats(data)| ==> TypeStats(data)[i].count >= TypeStats(data)[j].count
  {
    SortProperties(Groups(data));
  }

  // ---------------------------------------------------------------------------
  // The counts add up; ties keep first-appearance order
  // ---------------------------------------------------------------------------

  predicate Distinct(ts: seq<Json>) {
    forall i, j :: 0 <= i < j < |ts| ==> ts[i] != ts[j]
  }

  function SumSizes(es: seq<Entry>): nat
    decreases |es|
  {
    if es == [] then 0 else SumSizes(es[..|es| - 1]) + Size(es[|es| - 1])
  }

  /** The sum of the reported counts. */
  function SumCounts(stats: seq<TypeStat>): nat
    decreases |stats|
  {
    if stats == [] then 0 else SumCounts(stats[..|stats| - 1]) + stats[|stats| - 1].count
  }

  lemma SumSizesSnoc(es: seq<Entry>, e: Entry)
    ensures SumSizes(es + [e]) == SumSizes(es) + Size(e)
  {
    assert (es + [e])[..|es|] == es;
  }

  lemma {:induction false} SumSizesAppend(a: seq<Entry>, b: seq<Entry>)
    ensures SumSizes(a + b) == SumSizes(a) + SumSizes(b)
    decreases |b|
  {
    if b == [] {
      assert a + b == a;
    } else {
      var b' := b[..|b| - 1];
      assert a + b == (a + b') + [b[|b| - 1]];
      SumSizesSnoc(a + b', b[|b| - 1]);
      SumSizesAppend(a, b');
    }
  }

  lemma {:induction false} InsertSumSizes(es: seq<Entry>, e: Entry)
    ensures SumSizes(Insert(es, e)) == SumSizes(es) + Size(e)
    decreases |es|
  {
    if es == [] {
      assert Insert(es, e) == [] + [e];
      SumSizesSnoc([], e);
    } else if Size(es[0]) >= Size(e) {
      InsertSumSizes(es[1..], e);
      SumSizesAppend([es[0]], Insert(es[1..], e));
      SumSizesAppend([es[0]], es[1..]);
      assert es == [es[0]] + es[1..];
    } else {
      SumSizesAppend([e], es);
      assert [e] == [] + [e];
      SumSizesSnoc([], e);
    }
  }

  lemma {:induction false} SortSumSizes(es: seq<Entry>)
    ensures SumSizes(SortBySize(es)) == SumSizes(es)
    decreases |es|
  {
    if es != [] {
      SortSumSizes(es[..|es| - 1]);
      InsertSumSizes(SortBySize(es[..|es| - 1]), es[|es| - 1]);
    }
  }

  lemma {:induction false} StatsOfSum(es: seq<Entry>)
    requires EntriesScored(es)
    ensures SumCounts(StatsOf(es)) == SumSizes(es)
    decreases |es|
  {
    if es != [] {
      var p := es[..|es| - 1];
      assert forall e :: e in p ==> e in es;
      assert StatsOf(es)[..|es| - 1] == StatsOf(p);
      StatsOfSum(p);
    }
  }

  /** Adding a record adds one to the group sizes of the types in `ts` when
      its type is among them. */
  lemma {:induction false} GroupSizesSnoc(data: seq<Record>, ts: seq<Json>)
    requires Typed(data) && data != [] && Distinct(ts)
    ensures var p := data[..|data| - 1];
            SumSizes(EntriesFor(data, ts))
              == SumSizes(EntriesFor(p, ts)) + (if data[|data| - 1]["type"] in ts then 1 else 0)
    decreases |ts|
  {
    if ts != [] {
      var p, t, ts' := data[..|data| - 1], ts[|ts| - 1], ts[..|ts| - 1];
      assert Distinct(ts');
      GroupSizesSnoc(data, ts');
      SumSizesSnoc(EntriesFor(data, ts'), (t, Group(data, t)));
      SumSizesSnoc(EntriesFor(p, ts'), (t, Group(p, t)));
      assert ts == ts' + [t];
      assert data[|data| - 1]["type"] == t ==> data[|data| - 1]["type"] !in ts';
    }
  }

  /** The groups together hold every record once. */
  lemma {:induction false} GroupSizesTotal(data: seq<Record>)
    requires Typed(data)
    ensures SumSizes(Groups(data)) == |data|
    decreases |data|
  {
    if data != [] {
      var p, t := data[..|data| - 1], data[|data| - 1]["type"];
      GroupSizesTotal(p);
      TypesMembers(data);
      TypesMembers(p);
      GroupSizesSnoc(data, Types(p));
      if t !in Types(p) {
        GroupEmpty(p, t);
        SumSizesSnoc(EntriesFor(data, Types(p)), (t, Group(data, t)));
        assert Types(data) == Types(p) + [t];
        assert Types(data)[..|Types(data)| - 1] == Types(p);
      }
    }
  }

  /** The reported counts add up to the number of records: grouping is a
      partition. */
  lemma CountsSumToLength(data: seq<Record>)
    requires StatsReady(data)
    ensures SumCounts(TypeStats(data)) == |data|
  {
    SortedGroupsScored(data);
    StatsOfSum(SortBySize(Groups(data)));
    SortSumSizes(Groups(data));
    GroupSizesTotal(data);
  }

  /** The types of the report lines with count `n`, in report order. */
  function TypesWithCount(stats: seq<TypeStat>, n: nat): seq<Json>
    decreases |stats|
  {
    if stats == [] then []
    else
      var last := stats[|stats| - 1];
      TypesWithCount(stats[..|stats| - 1], n) + (if last.count == n then [last.typ] else [])
  }

  /** The types among `ts` that have exactly `n` records, in the order of `ts`. */
  function TypesOfSize(data: seq<Record>, ts: seq<Json>, n: nat): seq<Json>
    requires Typed(data)
    decreases |ts|
  {
    if ts == [] then []
    else
      var t := ts[|ts| - 1];
      TypesOfSize(data, ts[..|ts| - 1], n) + (if |Group(data, t)| == n then [t] else [])
  }

  function Keys(es: seq<Entry>): seq<Json>
    decreases |es|
  {
    if es == [] then [] else Keys(es[..|es| - 1]) + [es[|es| - 1].0]
  }

  lemma KeysSnoc(es: seq<Entry>, e: Entry)
    ensures Keys(es + [e]) == Keys(es) + [e.0]
  {
    assert (es + [e])[..|es|] == es;
  }

  lemma StatsOfSnoc(es: seq<Entry>, e: Entry)
    requires EntriesScored(es + [e])
    ensures EntriesScored(es)
    ensures StatsOf(es + [e]) == StatsOf(es) + [StatOf(e)]
  {
    assert forall x :: x in es ==> x in es + [e];
    assert e in es + [e];
  }

  lemma TypesWithCountSnoc(stats: seq<TypeStat>, line: TypeStat, n: nat)
    ensures TypesWithCount(stats + [line], n)
              == TypesWithCount(stats, n) + (if line.count == n then [line.typ] else [])
  {
    assert (stats + [line])[..|stats|] == stats;
  }

  lemma {:induction false} StatsOfTies(es: seq<Entry>, n: nat)
    requires EntriesScored(es)
    ensures TypesWithCount(StatsOf(es), n) == Keys(OfSize(es, n))
    decreases |es|
  {
    if es != [] {
      var p, e := es[..|es| - 1], es[|es| - 1];
      assert es == p + [e];
      StatsOfSnoc(p, e);
      StatsOfTies(p, n);
      TypesWithCountSnoc(StatsOf(p), StatOf(e), n);
      if Size(e) == n {
        KeysSnoc(OfSize(p, n), e);
      } else {
        assert OfSize(es, n) == OfSize(p, n);
      }
    }
  }

  lemma {:induction false} EntriesForTies(data: seq<Record>, ts: seq<Json>, n: nat)
    requires Typed(data)
    ensures Keys(OfSize(EntriesFor(data, ts), n)) == TypesOfSize(data, ts, n)
    decreases |ts|
  {
    if ts != [] {
      var ts', t := ts[..|ts| - 1], ts[|ts| - 1];
      var es := EntriesFor(data, ts);
      assert es[..|es| - 1] == EntriesFor(data, ts');
      EntriesForTies(data, ts', n);
      if |Group(data, t)| == n {
        KeysSnoc(OfSize(EntriesFor(data, ts'), n), (t, Group(data, t)));
      } else {
        assert OfSize(es, n) == OfSize(EntriesFor(data, ts'), n);
        assert TypesOfSize(data, ts, n) == TypesOfSize(data, ts', n);
      }
    }
  }

  /** Groups of equal size are reported in order of first appearance: the
      types reported with count `n` are the types having `n` records, in the
      order in which they first occur. */
  lemma TiesKeepFirstAppearance(data: seq<Record>, n: nat)
    requires StatsReady(data)
    ensures TypesWithCount(TypeStats(data), n) == TypesOfSize(data, Types(data), n)
  {
    SortedGroupsScored(data);
    StatsOfTies(SortBySize(Groups(data)), n);
    SortProperties(Groups(data));
    EntriesForTies(data, Types(data), n);
  }

  // ---------------------------------------------------------------------------
  // calculate_type_statistics
  // ---------------------------------------------------------------------------

  /** One more record extends the type list and one group. */
  lemma GroupingStep(data: seq<Record>, i: nat)
    requires Typed(data) && i < |data|
    ensures Typed(data[..i]) && Typed(data[..i + 1])
    ensures var t := data[i]["type"];
            Types(data[..i + 1]) == (if t in Types(data[..i]) then Types(data[..i]) else Types(data[..i]) + [t])
    ensures forall u :: Group(data[..i + 1], u)
              == Group(data[..i], u) + (if data[i]["type"] == u then [data[i]] else [])
    ensures data[i]["type"] !in Types(data[..i]) ==> Group(data[..i], data[i]["type"]) == []
  {
    assert data[..i + 1][..i] == data[..i];
    TypesMembers(data[..i]);
    GroupEmpty(data[..i], data[i]["type"]);
  }

  /** One more report line. */
  lemma ScoredStep(es: seq<Entry>, j: nat)
    requires EntriesScored(es) && j < |es|
    ensures NumFields(es[j].1, "score") && NumFields(es[j].1, "f1_score")
    ensures EntriesScored(es[..j + 1])
    ensures StatsOf(es[..j + 1]) == StatsOf(es[..j]) + [StatOf(es[j])]
  {
    assert es[j] in es;
    assert forall e :: e in es[..j + 1] ==> e in es;
    assert es[..j + 1] == es[..j] + [es[j]];
    StatsOfSnoc(es[..j], es[j]);
  }

  /** The filled dictionary's items, in key order, are the groups. */
  lemma ItemsAreGroups(data: seq<Record>, keys: seq<Json>, typeStats: map<Json, seq<Record>>, items: seq<Entry>)
    requires StatsReady(data) && keys == Types(data)
    requires forall t :: t in typeStats <==> t in keys
    requires forall t :: t in typeStats ==> typeStats[t] == Group(data, t)
    requires |items| == |keys| && forall j :: 0 <= j < |keys| ==> items[j] == (keys[j], typeStats[keys[j]])
    ensures items == Groups(data)
    ensures EntriesScored(SortBySize(items))
  {
    EntriesForShape(data, keys);
    SortedGroupsScored(data);
  }

  /** The `defaultdict(list)` after a pass over `p`: its keys, in the order
      they were first seen, and the group of each. */
  ghost predicate Grouped(p: seq<Record>, keys: seq<Json>, typeStats: map<Json, seq<Record>>)
    requires Typed(p)
  {
    && keys == Types(p)
    && (forall t :: t in typeStats <==> t in keys)
    && (forall t :: t in typeStats ==> typeStats[t] == Group(p, t))
  }

  /** Appending one record to its type's list (a new, empty list for an
      unseen type) keeps the dictionary grouped. */
  lemma GroupedStep(data: seq<Record>, i: nat, keys: seq<Json>, typeStats: map<Json, seq<Record>>)
    requires Typed(data) && i < |data| && Typed(data[..i]) && Grouped(data[..i], keys, typeStats)
    ensures Typed(data[..i + 1])
    ensures var t := data[i]["type"];
            var group := if t in typeStats then typeStats[t] else [];
            Grouped(data[..i + 1], if t in typeStats then keys else keys + [t], typeStats[t := group + [data[i]]])
  {
    GroupingStep(data, i);
  }

  /** The first loop of `calculate_type_statistics`: fills the
      `defaultdict(list)` keyed by type, remembering the order in which the
      types first appear. */
  method GroupByType(data: seq<Record>) returns (keys: seq<Json>, typeStats: map<Json, seq<Record>>)
    requires Typed(data)
    ensures keys == Types(data)
    ensures forall t :: t in typeStats <==> t in keys
    ensures forall t :: t in typeStats ==> typeStats[t] == Group(data, t)
  {
    keys, typeStats := [], map[];
    var i := 0;
    while i < |data|
      invariant 0 <= i <= |data| && Typed(data[..i]) && Grouped(data[..i], keys, typeStats)
    {
      var item := data[i];
      var t := item["type"];
      GroupedStep(data, i, keys, typeStats);
      var group := if t in typeStats then typeStats[t] else [];
      if t !in typeStats {
        keys := keys + [t];
      }
      typeStats := typeStats[t := group + [item]];
      i := i + 1;
    }
    assert data[..i] == data;
  }

  /** `calculate_type_statistics(data_list)`: one pass fills the
      `defaultdict(list)` keyed by type, then one report line is appended
      per group, largest group first. */
  method TypeStatistics(data: seq<Record>) returns (stats: seq<TypeStat>)
    requires StatsReady(data)
    ensures stats == TypeStats(data)
  {
    var keys, typeStats := GroupByType(data);
    var items := seq(|keys|, j requires 0 <= j < |keys| => (keys[j], typeStats[keys[j]]));
    ItemsAreGroups(data, keys, typeStats, items);
    var sorted := SortBySize(items);
    stats := [];
    var j := 0;
    while j < |sorted|
      invariant 0 <= j <= |sorted| && EntriesScored(sorted[..j])
      invariant stats == StatsOf(sorted[..j])
    {
      var typeKey, group := sorted[j].0, sorted[j].1;
      ScoredStep(sorted, j);
      var avg := CalculateAverage(group);
      stats := stats + [TypeStat(typeKey, |group|, avg.0, avg.1)];
      j := j + 1;
    }
    assert sorted[..j] == sorted;
  }
}
