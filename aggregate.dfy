/** `process_files` of evaluation/all_type_score.py: joins the ground truth
    with the scored predictions on `question_id`, splits the joined records
    into a Wiki list and a news (CNN) list by the ground truth's
    `cnn_wiki_type`, and reports the average scores and the per-type
    statistics of each list. */
module Aggregate {
  import opened Records
  import opened TypeScore

  /** `{**item, **pred}`: every field of either record, the prediction's
      value winning where both have the field. */
  function Merge(item: Record, pred: Record): (m: Record)
    ensures m.Keys == item.Keys + pred.Keys
    ensures forall k :: k in pred ==> m[k] == pred[k]
    ensures forall k :: k in item && k !in pred ==> m[k] == item[k]
  {
    item + pred
  }

  /** Ground truth the join loop can walk: every item has a hashable
      `question_id`, and an item whose id has a prediction also has a
      `cnn_wiki_type`. */
  predicate Joinable(gt: seq<Record>, index: map<Json, Record>) {
    forall i :: 0 <= i < |gt| ==>
      && "question_id" in gt[i] && IsKey(gt[i]["question_id"])
      && (gt[i]["question_id"] in index ==> "cnn_wiki_type" in gt[i])
  }

  /** The loop sends `item` to the list for `kind`: its id has a prediction
      and its own `cnn_wiki_type` is the string `kind`. */
  predicate RoutedTo(item: Record, index: map<Json, Record>, kind: string)
    requires "question_id" in item
  {
    item["question_id"] in index && "cnn_wiki_type" in item && item["cnn_wiki_type"] == Str(kind)
  }

  /** The merged records the loop appends to the list for `kind`
      (`'wiki'` or `'news'`), in ground-truth order. */
  function Routed(gt: seq<Record>, index: map<Json, Record>, kind: string): seq<Record>
    requires Joinable(gt, index)
    decreases |gt|
  {
    if gt == [] then []
    else
      var item := gt[|gt| - 1];
      Routed(gt[..|gt| - 1], index, kind)
        + (if RoutedTo(item, index, kind) then [Merge(item, index[item["question_id"]])] else [])
  }

  /** Routing a concatenation routes each part, in order. */
  lemma {:induction false} RoutedAppend(a: seq<Record>, b: seq<Record>, index: map<Json, Record>, kind: string)
    requires Joinable(a, index) && Joinable(b, index)
    ensures Joinable(a + b, index)
    ensures Routed(a + b, index, kind) == Routed(a, index, kind) + Routed(b, index, kind)
    decreases |b|
  {
    if b == [] {
      assert a + b == a;
    } else {
      var b' := b[..|b| - 1];
      assert (a + b)[..|a + b| - 1] == a + b';
      RoutedAppend(a, b', index, kind);
    }
  }

  /** Item `i` of the ground truth contributes the record `r` to the list
      for `kind`. */
  ghost predicate Source(gt: seq<Record>, index: map<Json, Record>, kind: string, r: Record, i: int)
    requires Joinable(gt, index)
  {
    0 <= i < |gt| && RoutedTo(gt[i], index, kind) && r == Merge(gt[i], index[gt[i]["question_id"]])
  }

  lemma SourceInPrefix(gt: seq<Record>, index: map<Json, Record>, kind: string, r: Record, i: int)
    requires Joinable(gt, index) && gt != [] && i < |gt| - 1
    ensures Joinable(gt[..|gt| - 1], index)
    ensures Source(gt[..|gt| - 1], index, kind, r, i) == Source(gt, index, kind, r, i)
  {
    if 0 <= i {
      assert gt[..|gt| - 1][i] == gt[i];
    }
  }

  /** Membership of one record `r`, by induction on the ground truth. */
  lemma {:induction false} RoutedMember(gt: seq<Record>, index: map<Json, Record>, kind: string, r: Record)
    requires Joinable(gt, index)
    ensures r in Routed(gt, index, kind) <==> exists i :: Source(gt, index, kind, r, i)
    decreases |gt|
  {
    if gt != [] {
      var p, n := gt[..|gt| - 1], |gt| - 1;
      RoutedMember(p, index, kind, r);
      var extra := if RoutedTo(gt[n], index, kind) then [Merge(gt[n], index[gt[n]["question_id"]])] else [];
      assert Routed(gt, index, kind) == Routed(p, index, kind) + extra;
      if r in Routed(p, index, kind) {
        var i :| Source(p, index, kind, r, i);
        SourceInPrefix(gt, index, kind, r, i);
      } else if r in extra {
        assert Source(gt, index, kind, r, n);
      }
      if exists i :: Source(gt, index, kind, r, i) {
        var i :| Source(gt, index, kind, r, i);
        if i < n {
          SourceInPrefix(gt, index, kind, r, i);
        }
      }
    }
  }

  /** A record is in the list for `kind` exactly when it is the merge of a
      ground-truth item routed there with that item's prediction. */
  lemma RoutedMembers(gt: seq<Record>, index: map<Json, Record>, kind: string)
    requires Joinable(gt, index)
    ensures forall r :: r in Routed(gt, index, kind) <==>
              exists i :: 0 <= i < |gt| && RoutedTo(gt[i], index, kind)
                          && r == Merge(gt[i], index[gt[i]["question_id"]])
  {
    forall r
      ensures r in Routed(gt, index, kind) <==>
                exists i :: 0 <= i < |gt| && RoutedTo(gt[i], index, kind)
                            && r == Merge(gt[i], index[gt[i]["question_id"]])
    {
      RoutedMember(gt, index, kind, r);
      if r in Routed(gt, index, kind) {
        var i :| Source(gt, index, kind, r, i);
      }
    }
  }

  /** The two lists together hold at most one record per ground-truth item:
      each item adds at most one record, to at most one list. */
  lemma {:induction false} RoutedAtMostOnce(gt: seq<Record>, index: map<Json, Record>)
    requires Joinable(gt, index)
    ensures |Routed(gt, index, "wiki")| + |Routed(gt, index, "news")| <= |gt|
    decreases |gt|
  {
    if gt != [] {
      RoutedAtMostOnce(gt[..|gt| - 1], index);
    }
  }

  /** `preds[j]` is the last prediction with its id. */
  predicate LastOfId(preds: seq<Record>, j: nat)
    requires Keyed(preds) && j < |preds|
  {
    forall m :: j < m < |preds| ==> preds[m]["question_id"] != preds[j]["question_id"]
  }

  /** Ground-truth item `i` is routed to `kind` and joined with prediction `j`,
      the last prediction with its id. */
  predicate JoinedPair(gt: seq<Record>, preds: seq<Record>, kind: string, i: nat, j: nat)
    requires Keyed(preds)
  {
    && i < |gt| && j < |preds|
    && "question_id" in gt[i] && "cnn_wiki_type" in gt[i]
    && gt[i]["question_id"] == preds[j]["question_id"]
    && gt[i]["cnn_wiki_type"] == Str(kind)
    && LastOfId(preds, j)
  }

  /** The join keeps only ground-truth items that have a prediction, and
      merges each with the last prediction carrying its id. */
  lemma JoinUsesLastPrediction(gt: seq<Record>, preds: seq<Record>, kind: string)
    requires Keyed(preds) && Joinable(gt, IndexById(preds))
    ensures forall r :: r in Routed(gt, IndexById(preds), kind) ==>
              exists i: nat, j: nat :: JoinedPair(gt, preds, kind, i, j) && r == Merge(gt[i], preds[j])
  {
    var index := IndexById(preds);
    RoutedMembers(gt, index, kind);
    IndexByIdKeys(preds);
    forall r | r in Routed(gt, index, kind)
      ensures exists i: nat, j: nat :: JoinedPair(gt, preds, kind, i, j) && r == Merge(gt[i], preds[j])
    {
      var i :| 0 <= i < |gt| && RoutedTo(gt[i], index, kind)
               && r == Merge(gt[i], index[gt[i]["question_id"]]);
      var j := LastWithId(preds, gt[i]["question_id"]);
      IndexByIdLastWins(preds, j);
      assert JoinedPair(gt, preds, kind, i, j);
    }
  }

  /** The index of the last record with id `k`. */
  function LastWithId(rs: seq<Record>, k: Json): (j: nat)
    requires Keyed(rs) && HasId(rs, k)
    ensures j < |rs| && rs[j]["question_id"] == k
    ensures forall m :: j < m < |rs| ==> rs[m]["question_id"] != k
    decreases |rs|
  {
    if rs[|rs| - 1]["question_id"] == k then |rs| - 1
    else
      assert HasId(rs[..|rs| - 1], k) by {
        var i :| 0 <= i < |rs| && "question_id" in rs[i] && rs[i]["question_id"] == k;
        assert rs[..|rs| - 1][i] == rs[i];
      }
      LastWithId(rs[..|rs| - 1], k)
  }

  /** What `process_files` writes, with the numbers unformatted. */
  datatype Report = Report(
    wikiAverage: (real, real),
    newsAverage: (real, real),
    wikiTypes: seq<TypeStat>,
    newsTypes: seq<TypeStat>)

  /** `process_files` after the two files are read. */
  method ProcessFiles(gt: seq<Record>, preds: seq<Record>) returns (report: Report)
    requires Keyed(preds) && Joinable(gt, IndexById(preds))
    requires StatsReady(Routed(gt, IndexById(preds), "wiki"))
    requires StatsReady(Routed(gt, IndexById(preds), "news"))
    ensures var wiki, news := Routed(gt, IndexById(preds), "wiki"), Routed(gt, IndexById(preds), "news");
            report == Report(CalculateAverage(wiki), CalculateAverage(news), TypeStats(wiki), TypeStats(news))
  {
    var bDataDict := IndexById(preds);
    var wikiData: seq<Record> := [];
    var cnnData: seq<Record> := [];
    var i := 0;
    while i < |gt|
      invariant 0 <= i <= |gt| && Joinable(gt[..i], bDataDict)
      invariant wikiData == Routed(gt[..i], bDataDict, "wiki")
      invariant cnnData == Routed(gt[..i], bDataDict, "news")
    {
      var item := gt[i];
      assert gt[..i + 1][..i] == gt[..i];
      var questionId := item["question_id"];
      if questionId in bDataDict {
        var mergedData := Merge(item, bDataDict[questionId]);
        if item["cnn_wiki_type"] == Str("wiki") {
          wikiData := wikiData + [mergedData];
        } else if item["cnn_wiki_type"] == Str("news") {
          cnnData := cnnData + [mergedData];
        }
      }
      i := i + 1;
    }
    assert gt[..i] == gt;
    var wikiTypes := TypeStatistics(wikiData);
    var cnnTypes := TypeStatistics(cnnData);
    report := Report(CalculateAverage(wikiData), CalculateAverage(cnnData), wikiTypes, cnnTypes);
  }
}
