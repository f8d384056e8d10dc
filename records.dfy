/** The JSON-lines records both evaluation scripts read: a ground-truth file and
    a prediction file, one JSON object per line, joined on `question_id`.
    Numbers are exact reals; Python's ints and floats are both `Num`. */
module Records {

  datatype Json =
    | Null
    | Bool(b: bool)
    | Num(n: real)
    | Str(s: string)
    | Arr(items: seq<Json>)
    | Obj(fields: map<string, Json>)

  /** One line of a JSON-lines file, as `json.loads` returns it. */
  type Record = map<string, Json>

  /** Python can use the value as a dictionary key: lists and objects are
      unhashable and raise `TypeError`. */
  predicate IsKey(v: Json) {
    !v.Arr? && !v.Obj?
  }

  /** Every record has field `f` (otherwise `record[f]` raises `KeyError`). */
  predicate AllHave(rs: seq<Record>, f: string) {
    forall i :: 0 <= i < |rs| ==> f in rs[i]
  }

  /** Every record has a `question_id` usable as a dictionary key. */
  predicate Keyed(rs: seq<Record>) {
    forall i :: 0 <= i < |rs| ==> "question_id" in rs[i] && IsKey(rs[i]["question_id"])
  }

  /** Some record of `rs` has id `k`. */
  predicate HasId(rs: seq<Record>, k: Json) {
    exists i :: 0 <= i < |rs| && "question_id" in rs[i] && rs[i]["question_id"] == k
  }

  /** The dictionary comprehension `{r['question_id']: r for r in rs}`: each
      record in turn is stored under its id, so a later record with the same
      id replaces an earlier one. */
  function IndexById(rs: seq<Record>): map<Json, Record>
    requires Keyed(rs)
    decreases |rs|
  {
    if rs == [] then map[]
    else IndexById(rs[..|rs| - 1])[rs[|rs| - 1]["question_id"] := rs[|rs| - 1]]
  }

  /** The index holds exactly the ids of the records. */
  lemma {:induction false} IndexByIdKeys(rs: seq<Record>)
    requires Keyed(rs)
    ensures forall k :: k in IndexById(rs) <==> HasId(rs, k)
    decreases |rs|
  {
    if rs != [] {
      var p := rs[..|rs| - 1];
      IndexByIdKeys(p);
      forall k
        ensures k in IndexById(rs) <==> HasId(rs, k)
      {
        if HasId(p, k) {
          var i :| 0 <= i < |p| && "question_id" in p[i] && p[i]["question_id"] == k;
          assert rs[i] == p[i];
        }
        if HasId(rs, k) && k != rs[|rs| - 1]["question_id"] {
          var i :| 0 <= i < |rs| && "question_id" in rs[i] && rs[i]["question_id"] == k;
          assert p[i] == rs[i];
        }
      }
    }
  }

  /** Among records sharing an id, the index keeps the last. */
  lemma {:induction false} IndexByIdLastWins(rs: seq<Record>, i: nat)
    requires Keyed(rs)
    requires i < |rs|
    requires forall j :: i < j < |rs| ==> rs[j]["question_id"] != rs[i]["question_id"]
    ensures rs[i]["question_id"] in IndexById(rs)
    ensures IndexById(rs)[rs[i]["question_id"]] == rs[i]
    decreases |rs|
  {
    if i < |rs| - 1 {
      var p := rs[..|rs| - 1];
      assert p[i] == rs[i];
      IndexByIdLastWins(p, i);
    }
  }

  /** The dictionary comprehension `{r['question_id']: r[f] for r in rs}`;
      here too a later record with the same id wins. */
  function Project(rs: seq<Record>, f: string): map<Json, Json>
    requires Keyed(rs) && AllHave(rs, f)
    decreases |rs|
  {
    if rs == [] then map[]
    else Project(rs[..|rs| - 1], f)[rs[|rs| - 1]["question_id"] := rs[|rs| - 1][f]]
  }

  /** Projecting field `f` gives what indexing the records gives, field `f`
      of the record the index keeps. */
  lemma {:induction false} ProjectIsIndex(rs: seq<Record>, f: string)
    requires Keyed(rs) && AllHave(rs, f)
    ensures Project(rs, f).Keys == IndexById(rs).Keys
    ensures forall k :: k in IndexById(rs) ==> f in IndexById(rs)[k] && Project(rs, f)[k] == IndexById(rs)[k][f]
    decreases |rs|
  {
    if rs != [] {
      ProjectIsIndex(rs[..|rs| - 1], f);
    }
  }

  /** Every record has field `f`, holding a number. */
  predicate NumFields(rs: seq<Record>, f: string) {
    forall i :: 0 <= i < |rs| ==> f in rs[i] && rs[i][f].Num?
  }

  /** Every record's field `f` holds a number between 0 and 1. */
  predicate UnitFields(rs: seq<Record>, f: string) {
    forall i :: 0 <= i < |rs| ==> f in rs[i] && rs[i][f].Num? && 0.0 <= rs[i][f].n <= 1.0
  }

  /** `sum(r[f] for r in rs)`, added up left to right. */
  function Sum(rs: seq<Record>, f: string): real
    requires NumFields(rs, f)
    decreases |rs|
  {
    if rs == [] then 0.0 else Sum(rs[..|rs| - 1], f) + rs[|rs| - 1][f].n
  }

  /** The guarded average the scripts use: the sum over the count, or 0 when
      there is nothing to average. */
  function Mean(rs: seq<Record>, f: string): real
    requires NumFields(rs, f)
  {
    if rs == [] then 0.0 else Sum(rs, f) / |rs| as real
  }

  /** Appending a record adds its field `f` to the sum. */
  lemma SumSnoc(rs: seq<Record>, r: Record, f: string)
    requires NumFields(rs, f) && f in r && r[f].Num?
    ensures NumFields(rs + [r], f)
    ensures UnitFields(rs, f) && 0.0 <= r[f].n <= 1.0 ==> UnitFields(rs + [r], f)
    ensures Sum(rs + [r], f) == Sum(rs, f) + r[f].n
  {
    assert (rs + [r])[..|rs|] == rs;
  }

  /** Summing a concatenation sums the parts. */
  lemma {:induction false} SumAppend(a: seq<Record>, b: seq<Record>, f: string)
    requires NumFields(a, f) && NumFields(b, f)
    ensures NumFields(a + b, f)
    ensures Sum(a + b, f) == Sum(a, f) + Sum(b, f)
    decreases |b|
  {
    if b != [] {
      var b' := b[..|b| - 1];
      assert (a + b)[..|a + b| - 1] == a + b';
      SumAppend(a, b', f);
    } else {
      assert a + b == a;
    }
  }

  /** Values between 0 and 1 add up to between 0 and the count. */
  lemma {:induction false} SumUnitBounds(rs: seq<Record>, f: string)
    requires UnitFields(rs, f)
    ensures 0.0 <= Sum(rs, f) <= |rs| as real
    decreases |rs|
  {
    if rs != [] {
      SumUnitBounds(rs[..|rs| - 1], f);
    }
  }

  /** Values between 0 and 1 average to between 0 and 1. */
  lemma MeanUnitBounds(rs: seq<Record>, f: string)
    requires UnitFields(rs, f)
    ensures 0.0 <= Mean(rs, f) <= 1.0
  {
    SumUnitBounds(rs, f);
    if rs != [] {
      var n := |rs| as real;
      assert Sum(rs, f) / n <= n / n;
    }
  }

}
