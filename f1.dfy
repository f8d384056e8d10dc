/** Token-level F1 between a predicted and a gold answer (`get_f1_score` in
    evaluation/eval_acc_f1.py). A `collections.Counter` of tokens is a
    multiset, and `Counter & Counter` is multiset intersection. */
module F1 {
  import opened Normalize

  /** `sum((Counter(gold) & Counter(pred)).values())`: the common tokens,
      each counted as often as it occurs in both lists. */
  function NumSame(gold: seq<string>, pred: seq<string>): nat {
    |multiset(gold) * multiset(pred)|
  }

  /** `get_f1_score` on the two token lists. */
  function TokenF1(pred: seq<string>, gold: seq<string>): real {
    if |gold| == 0 || |pred| == 0 then
      (if gold == pred then 1.0 else 0.0)
    else if NumSame(gold, pred) == 0 then
      0.0
    else
      var precision := NumSame(gold, pred) as real / |pred| as real;
      var recall := NumSame(gold, pred) as real / |gold| as real;
      (2.0 * precision * recall) / (precision + recall)
  }

  /** `get_f1_score(a_pred, a_gold)` */
  function F1Score(pred: string, gold: string): real {
    TokenF1(GetTokens(pred), GetTokens(gold))
  }

  /** Two empty token lists score 1, exactly one empty list scores 0. */
  lemma EmptyCases(pred: seq<string>, gold: seq<string>)
    ensures pred == [] && gold == [] ==> TokenF1(pred, gold) == 1.0
    ensures (pred == []) != (gold == []) ==> TokenF1(pred, gold) == 0.0
  {
  }

  /** An answer that normalises to nothing, such as "the", matches only
      another such answer. */
  lemma ArticleOnlyAnswer(pred: string, gold: string)
    requires pred == "the" && GetTokens(gold) == []
    ensures GetTokens(pred) == []
    ensures F1Score(pred, gold) == 1.0
    ensures forall other :: GetTokens(other) != [] ==> F1Score(pred, other) == 0.0
  {
    assert pred[0] == 't' && pred[1] == 'h' && pred[2] == 'e' && pred[3..] == [];
    LowerStrId(pred);
    RemovePuncId(pred);
    assert MatchesAt(pred, "the") && !MatchesAt(pred, "a") && !MatchesAt(pred, "an");
    var sp := RemoveArticles(pred);
    assert sp == " " + RemoveArticlesFrom(pred[3..], true);
    assert sp[0] == ' ' && sp[1..] == [];
    GetTokensIsSplit(pred);
  }


  /** Counting common tokens does not depend on which list is the gold one. */
  lemma NumSameSymmetric(gold: seq<string>, pred: seq<string>)
    ensures NumSame(gold, pred) == NumSame(pred, gold)
  {
    assert multiset(gold) * multiset(pred) == multiset(pred) * multiset(gold);
  }

  lemma IntersectionSize(a: multiset<string>, b: multiset<string>)
    ensures |a * b| <= |a| && |a * b| <= |b|
  {
    assert a == (a - a * b) + a * b;
    assert b == (b - a * b) + a * b;
  }

  lemma SubMultisetOfSameSize(a: multiset<string>, x: multiset<string>)
    requires x <= a && |x| == |a|
    ensures x == a
  {
    assert a == (a - x) + x;
    assert |a - x| == 0;
  }

  /** Duplicates count only up to their smaller multiplicity, so the overlap
      is at most the length of either list. */
  lemma NumSameBounds(gold: seq<string>, pred: seq<string>)
    ensures NumSame(gold, pred) <= |gold| && NumSame(gold, pred) <= |pred|
  {
    IntersectionSize(multiset(gold), multiset(pred));
  }

  lemma HarmonicMean(n: real, p: real, g: real)
    requires n > 0.0 && p > 0.0 && g > 0.0
    ensures (2.0 * (n / p) * (n / g)) / (n / p + n / g) == 2.0 * n / (p + g)
  {
    var pr, rc := n / p, n / g;
    assert pr * p == n && rc * g == n;
    assert pr + rc == n * (p + g) / (p * g) by {
      assert pr == n * g / (p * g) && rc == n * p / (p * g);
    }
    assert 2.0 * pr * rc == 2.0 * n * n / (p * g);
    calc {
      (2.0 * pr * rc) / (pr + rc);
      (2.0 * n * n / (p * g)) / (n * (p + g) / (p * g));
      2.0 * n * n / (n * (p + g));
      2.0 * n / (p + g);
    }
  }

  lemma RatioInUnit(n: real, t: real)
    requires 0.0 < n && 2.0 * n <= t
    ensures 0.0 < 2.0 * n / t <= 1.0
  {
    assert 2.0 * n / t <= t / t;
  }

  /** With both lists non-empty, F1 is 0 when nothing is shared and otherwise
      twice the overlap over the total length, a value in (0, 1]. */
  lemma Formula(pred: seq<string>, gold: seq<string>)
    requires pred != [] && gold != []
    ensures NumSame(gold, pred) == 0 ==> TokenF1(pred, gold) == 0.0
    ensures NumSame(gold, pred) > 0 ==>
              TokenF1(pred, gold) == 2.0 * NumSame(gold, pred) as real / (|pred| + |gold|) as real
    ensures NumSame(gold, pred) > 0 ==> 0.0 < TokenF1(pred, gold) <= 1.0
  {
    var n := NumSame(gold, pred);
    if n > 0 {
      var nr, p, g := n as real, |pred| as real, |gold| as real;
      assert TokenF1(pred, gold) == (2.0 * (nr / p) * (nr / g)) / (nr / p + nr / g);
      HarmonicMean(nr, p, g);
      assert (|pred| + |gold|) as real == p + g;
      NumSameBounds(gold, pred);
      RatioInUnit(nr, p + g);
    }
  }

  /** The score is always between 0 and 1. */
  lemma InUnitRange(pred: seq<string>, gold: seq<string>)
    ensures 0.0 <= TokenF1(pred, gold) <= 1.0
  {
    if pred != [] && gold != [] {
      Formula(pred, gold);
    }
  }

  /** `get_f1_score` is symmetric in its two arguments. */
  lemma Symmetric(pred: seq<string>, gold: seq<string>)
    ensures TokenF1(pred, gold) == TokenF1(gold, pred)
  {
    NumSameSymmetric(gold, pred);
    if pred != [] && gold != [] {
      Formula(pred, gold);
      Formula(gold, pred);
    }
  }

  lemma OneMeansSame(pred: seq<string>, gold: seq<string>)
    requires pred != [] && gold != [] && TokenF1(pred, gold) == 1.0
    ensures multiset(pred) == multiset(gold)
  {
    var a, b := multiset(gold), multiset(pred);
    var n := NumSame(gold, pred);
    Formula(pred, gold);
    NumSameBounds(gold, pred);
    var t := (|pred| + |gold|) as real;
    assert 2.0 * n as real == t;
    assert n == |gold| && n == |pred|;
    SubMultisetOfSameSize(a, a * b);
    SubMultisetOfSameSize(b, a * b);
  }

  lemma SameMeansOne(pred: seq<string>, gold: seq<string>)
    requires pred != [] && gold != [] && multiset(pred) == multiset(gold)
    ensures TokenF1(pred, gold) == 1.0
  {
    var a := multiset(gold);
    assert a * a == a;
    assert NumSame(gold, pred) == |gold| == |pred|;
    Formula(pred, gold);
  }

  /** The score is 1 exactly when both lists hold the same tokens, each as
      often, in any order. */
  lemma OneIffSameTokens(pred: seq<string>, gold: seq<string>)
    ensures TokenF1(pred, gold) == 1.0 <==> multiset(pred) == multiset(gold)
  {
    if pred == [] && gold != [] {
      assert gold[0] in multiset(gold);
    } else if gold == [] && pred != [] {
      assert pred[0] in multiset(pred);
    } else if pred != [] && gold != [] {
      if TokenF1(pred, gold) == 1.0 {
        OneMeansSame(pred, gold);
      }
      if multiset(pred) == multiset(gold) {
        SameMeansOne(pred, gold);
      }
    }
  }

  /** A repeated predicted word is matched once: "cat cat" against "cat"
      scores 2/3. */
  lemma RepeatsCountOnce(pred: string, gold: string)
    requires pred == "cat cat" && gold == "cat"
    ensures F1Score(pred, gold) == 2.0 / 3.0
  {
    RepeatedWordTokens(pred);
    assert gold == pred[..3];
    RepeatScore(["cat", "cat"], ["cat"]);
  }

  /** The token lists of that example: one common token out of three. */
  lemma RepeatScore(p: seq<string>, g: seq<string>)
    requires p == ["cat", "cat"] && g == ["cat"]
    ensures TokenF1(p, g) == 2.0 / 3.0
  {
    assert multiset(p) == multiset{"cat", "cat"};
    assert multiset(g) * multiset(p) == multiset{"cat"};
    assert NumSame(g, p) == 1;
    Formula(p, g);
  }

  /** An article in only one answer does not lower the score. */
  lemma ArticleDoesNotCount(pred: string, gold: string)
    requires pred == "The cat"
    requires GetTokens(gold) == ["cat"]
    ensures F1Score(pred, gold) == 1.0
  {
    ArticlesOnlyAsWholeWords(pred);
    OneIffSameTokens(["cat"], ["cat"]);
  }
}
