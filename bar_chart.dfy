/**
 * The ordering and percentage part of the budget bar chart (wage_explore.py,
 * make_bar). The segments are drawn largest value first; each carries the
 * label at its original position and its share of the total in percent.
 *
 * `sorted(range(n), key=lambda k: values[k], reverse=True)` is Python's
 * stable sort in reverse: a larger value comes first, and equal values keep
 * the order of their indices. `Before` is that order, `Ordered` says a
 * sequence of indices follows it, and `SortedIndices` builds the one such
 * sequence that holds each index below `n` (lemma `SortedIndicesUnique`).
 */
module BarChart {
  import opened Results

  /** make_bar's fixed label list, indexed by a value's original position. */
  const Labels: seq<string> := ["Chicken (lbs)", "Gas (gallons)", "Savings"]

  /** One stacked bar segment: its legend label, its value and its percentage of the total. */
  datatype Segment = Segment(name: string, value: real, percent: real)

  /** Why make_bar raises instead of returning a figure. */
  datatype BarError =
    | MissingLabel  // IndexError: more values than labels
    | ZeroTotal     // ZeroDivisionError: the values sum to zero

  /** Index `i` is drawn before index `j`: a larger value, or an equal value and a smaller index. */
  predicate Before(v: seq<real>, i: nat, j: nat) {
    i < |v| && j < |v| && (v[i] > v[j] || (v[i] == v[j] && i < j))
  }

  /** `s` lists indices of `v` in drawing order, each at most once. */
  ghost predicate Ordered(v: seq<real>, s: seq<nat>) {
    (forall k | 0 <= k < |s| :: s[k] < |v|) &&
    forall p, q | 0 <= p < q < |s| :: Before(v, s[p], s[q])
  }

  /** `s` holds exactly the indices `0 .. n-1`. */
  ghost predicate HoldsRange(s: seq<nat>, n: nat) {
    forall x: nat :: x in s <==> x < n
  }

  /** Puts index `i` into the ordered `s`, after every index drawn before it. */
  function Insert(v: seq<real>, i: nat, s: seq<nat>): (r: seq<nat>)
    requires i < |v| && i !in s && Ordered(v, s)
    ensures Ordered(v, r)
    ensures |r| == |s| + 1
    ensures forall x: nat :: x in r <==> x == i || x in s
  {
    if s == [] then [i]
    else if Before(v, s[0], i) then
      var t := Insert(v, i, s[1..]);
      assert forall x: nat | x in t :: Before(v, s[0], x) by {
        forall x: nat | x in t ensures Before(v, s[0], x) {
          if x != i {
            var q :| 1 <= q < |s| && s[q] == x;
          }
        }
      }
      assert forall q | 0 < q < |[s[0]] + t| :: ([s[0]] + t)[q] == t[q - 1];
      [s[0]] + t
    else
      assert forall k | 0 <= k < |s| :: Before(v, i, s[k]) by {
        forall k | 0 <= k < |s| ensures Before(v, i, s[k]) {
          if k > 0 { assert Before(v, s[0], s[k]); }
        }
      }
      assert forall q | 0 < q < |[i] + s| :: ([i] + s)[q] == s[q - 1];
      [i] + s
  }

  /** The indices `0 .. k-1` of `v` in drawing order. */
  function SortedPrefix(v: seq<real>, k: nat): (r: seq<nat>)
    requires k <= |v|
    ensures Ordered(v, r) && |r| == k && HoldsRange(r, k)
  {
    if k == 0 then [] else Insert(v, k - 1, SortedPrefix(v, k - 1))
  }

  /** `sorted(range(len(v)), key=lambda k: v[k], reverse=True)`. */
  function SortedIndices(v: seq<real>): (r: seq<nat>)
    ensures Ordered(v, r) && |r| == |v| && HoldsRange(r, |v|)
  {
    SortedPrefix(v, |v|)
  }

  /** `[xs[i] for i in idx]`. */
  function Permute<T>(xs: seq<T>, idx: seq<nat>): (r: seq<T>)
    requires forall k | 0 <= k < |idx| :: idx[k] < |xs|
    ensures |r| == |idx| && forall k | 0 <= k < |idx| :: r[k] == xs[idx[k]]
  {
    seq(|idx|, k requires 0 <= k < |idx| => xs[idx[k]])
  }

  /** Python's `sum` loop: start from `acc` and add the elements left to right. */
  function SumFrom(acc: real, xs: seq<real>): real
    decreases xs
  {
    if xs == [] then acc else SumFrom(acc + xs[0], xs[1..])
  }

  /** A running total can be taken out of the loop. */
  lemma {:induction false} SumFromShift(acc: real, xs: seq<real>)
    ensures SumFrom(acc, xs) == acc + SumFrom(0.0, xs)
    decreases xs
  {
    if xs != [] {
      SumFromShift(acc + xs[0], xs[1..]);
      SumFromShift(xs[0], xs[1..]);
    }
  }

  /** `sum(xs)`, folded from the right; `SumIsPythonSum` shows it agrees with Python's loop. */
  function Sum(xs: seq<real>): real {
    if xs == [] then 0.0 else xs[0] + Sum(xs[1..])
  }

  /** Folding from the right gives what Python's left-to-right loop from 0 gives. */
  lemma {:induction false} SumIsPythonSum(xs: seq<real>)
    ensures Sum(xs) == SumFrom(0.0, xs)
  {
    if xs != [] {
      SumIsPythonSum(xs[1..]);
      SumFromShift(xs[0], xs[1..]);
    }
  }

  /** `[(value / total) * 100 for value in xs]`. */
  function Percentages(xs: seq<real>, total: real): (r: seq<real>)
    requires total != 0.0
    ensures |r| == |xs|
    ensures forall k | 0 <= k < |xs| :: r[k] * total == xs[k] * 100.0
  {
    seq(|xs|, k requires 0 <= k < |xs| => xs[k] / total * 100.0)
  }

  /**
   * The segments of a bar over `values`, labelled from `labels` by original
   * position: make_bar's ordering and percentages. Labels are taken before
   * the total is divided, so too many values is reported first; with no
   * values nothing is divided and the bar is empty.
   */
  function Bar(values: seq<real>, labels: seq<string>): (r: Result<seq<Segment>, BarError>)
    ensures r == Err(MissingLabel) <==> |values| > |labels|
    ensures r == Err(ZeroTotal) <==> |values| <= |labels| && |values| > 0 && Sum(values) == 0.0
    ensures r.Ok? ==>
      var idx := SortedIndices(values);
      |r.value| == |values| &&
      forall k | 0 <= k < |values| ::
        r.value[k].name == labels[idx[k]] && r.value[k].value == values[idx[k]] &&
        r.value[k].percent * Sum(values) == values[idx[k]] * 100.0
  {
    var idx := SortedIndices(values);
    var sortedValues := Permute(values, idx);
    if |values| > |labels| then Err(MissingLabel)
    else
      var sortedLabels := Permute(labels, idx);
      var total := Sum(sortedValues);
      SumPermuted(values);
      if |values| > 0 && total == 0.0 then Err(ZeroTotal)
      else if |values| == 0 then Ok([])
      else
        var percentages := Percentages(sortedValues, total);
        Ok(seq(|values|, k requires 0 <= k < |values| => Segment(sortedLabels[k], sortedValues[k], percentages[k])))
  }

  /** make_bar: the bar over `values` with its own fixed label list. */
  function MakeBar(values: seq<real>): (r: Result<seq<Segment>, BarError>)
    ensures r == Err(MissingLabel) <==> |values| > 3
    ensures r == Err(ZeroTotal) <==> |values| <= 3 && |values| > 0 && Sum(values) == 0.0
    ensures r.Ok? ==> r == Bar(values, Labels)
  {
    Bar(values, Labels)
  }

  // ---------------------------------------------------------------------------
  // Properties of the ordering

  /**
   * The drawing order is unique: two ordered index sequences of one length
   * holding the same indices are equal. So `SortedIndices` agrees with Python's `sorted`,
   * whatever algorithm that uses.
   */
  lemma {:induction false} OrderedUnique(v: seq<real>, s: seq<nat>, t: seq<nat>)
    requires Ordered(v, s) && Ordered(v, t)
    requires |s| == |t| && forall x: nat :: x in s <==> x in t
    ensures s == t
  {
    if s != [] {
      assert s[0] in s && s[0] in t;
      assert t[0] in t && t[0] in s;
      var first, other := s[0], t[0];
      var q :| 0 <= q < |t| && t[q] == first;
      var p :| 0 <= p < |s| && s[p] == other;
      assert q == 0 || Before(v, other, first);
      assert first == other;
      forall x: nat ensures x in s[1..] <==> x in t[1..] {
        if x in s[1..] {
          var k :| 1 <= k < |s| && s[k] == x;
          assert Before(v, s[0], s[k]);
          assert x in s && x in t;
          var q :| 0 <= q < |t| && t[q] == x;
          assert q != 0;
          assert t[1..][q - 1] == x;
        }
        if x in t[1..] {
          var k :| 1 <= k < |t| && t[k] == x;
          assert Before(v, t[0], t[k]);
          assert x in t && x in s;
          var p :| 0 <= p < |s| && s[p] == x;
          assert p != 0;
          assert s[1..][p - 1] == x;
        }
      }
      OrderedUnique(v, s[1..], t[1..]);
      assert s == [s[0]] + s[1..] && t == [t[0]] + t[1..];
    }
  }

  /** Any ordered sequence of all the indices is the one `SortedIndices` gives. */
  lemma SortedIndicesUnique(v: seq<real>, s: seq<nat>)
    requires Ordered(v, s) && |s| == |v| && HoldsRange(s, |v|)
    ensures s == SortedIndices(v)
  {
    OrderedUnique(v, s, SortedIndices(v));
  }

  /** The sorted values are non-increasing, and equal values keep their original order. */
  lemma SortedDescendingStable(v: seq<real>, p: nat, q: nat)
    requires p < q < |v|
    ensures var idx := SortedIndices(v);
      v[idx[p]] >= v[idx[q]] && (v[idx[p]] == v[idx[q]] ==> idx[p] < idx[q])
  {
    var idx := SortedIndices(v);
    assert Before(v, idx[p], idx[q]);
  }

  // ---------------------------------------------------------------------------
  // Properties of the sums and percentages

  lemma {:induction false} SumConcat(a: seq<real>, b: seq<real>)
    ensures Sum(a + b) == Sum(a) + Sum(b)
  {
    if a == [] {
      assert a + b == b;
    } else {
      assert (a + b)[1..] == a[1..] + b;
      SumConcat(a[1..], b);
    }
  }

  /** Inserting index `i` adds `v[i]` to the sum of the permuted values. */
  lemma {:induction false} SumInsert(v: seq<real>, i: nat, s: seq<nat>)
    requires i < |v| && i !in s && Ordered(v, s)
    ensures Sum(Permute(v, Insert(v, i, s))) == Sum(Permute(v, s)) + v[i]
  {
    var r := Insert(v, i, s);
    if s == [] {
      assert Permute(v, r) == [v[i]];
    } else if Before(v, s[0], i) {
      assert Ordered(v, s[1..]) by {
        assert forall p, q | 0 <= p < q < |s[1..]| :: s[1..][p] == s[p + 1] && s[1..][q] == s[q + 1];
      }
      SumInsert(v, i, s[1..]);
      assert Permute(v, r)[1..] == Permute(v, Insert(v, i, s[1..]));
      assert Permute(v, s)[1..] == Permute(v, s[1..]);
    } else {
      assert Permute(v, r)[1..] == Permute(v, s);
    }
  }

  /** The sum over the first `k` sorted indices is the sum of the first `k` values. */
  lemma {:induction false} SumSortedPrefix(v: seq<real>, k: nat)
    requires k <= |v|
    ensures Sum(Permute(v, SortedPrefix(v, k))) == Sum(v[..k])
  {
    if k == 0 {
      assert Permute(v, []) == [];
    } else {
      SumSortedPrefix(v, k - 1);
      assert k - 1 !in SortedPrefix(v, k - 1);
      SumInsert(v, k - 1, SortedPrefix(v, k - 1));
      assert v[..k] == v[..k - 1] + [v[k - 1]];
      SumConcat(v[..k - 1], [v[k - 1]]);
    }
  }

  /** Reordering does not change the total: make_bar's total is the sum of its input. */
  lemma SumPermuted(v: seq<real>)
    ensures Sum(Permute(v, SortedIndices(v))) == Sum(v)
  {
    SumSortedPrefix(v, |v|);
    assert v[..|v|] == v;
  }

  /** Dividing each of `xs` by their total and scaling by 100 gives shares summing to 100. */
  lemma {:induction false} SumPercentages(xs: seq<real>, total: real)
    requires total != 0.0
    ensures Sum(Percentages(xs, total)) == Sum(xs) / total * 100.0
  {
    if xs != [] {
      assert Percentages(xs, total)[1..] == Percentages(xs[1..], total);
      SumPercentages(xs[1..], total);
      assert Percentages(xs, total)[0] == xs[0] / total * 100.0;
      calc {
        xs[0] / total * 100.0 + Sum(xs[1..]) / total * 100.0;
        (xs[0] + Sum(xs[1..])) / total * 100.0;
      }
    }
  }

  /** A nonnegative value is at most the sum of nonnegative values that contain it. */
  lemma {:induction false} ElementAtMostSum(xs: seq<real>, k: nat)
    requires k < |xs|
    requires forall j | 0 <= j < |xs| :: xs[j] >= 0.0
    ensures 0.0 <= xs[k] <= Sum(xs)
  {
    SumNonnegative(xs[1..]);
    if k > 0 {
      ElementAtMostSum(xs[1..], k - 1);
    }
  }

  lemma {:induction false} SumNonnegative(xs: seq<real>)
    requires forall j | 0 <= j < |xs| :: xs[j] >= 0.0
    ensures Sum(xs) >= 0.0
  {
    if xs != [] {
      SumNonnegative(xs[1..]);
    }
  }

  /** A percentage of a positive total is at most 100 exactly when its part is at most the total, and nonnegative with its part. */
  lemma ShareBounds(part: real, total: real, pct: real)
    requires pct * total == part * 100.0 && total > 0.0
    ensures part <= total ==> pct <= 100.0
    ensures part > total ==> pct > 100.0
    ensures part >= 0.0 ==> pct >= 0.0
  {
  }

  /** The sum of two values. */
  lemma SumPair(a: real, b: real)
    ensures Sum([a, b]) == a + b
  {
    assert [a, b][1..] == [b];
    assert [b][1..] == [];
    assert Sum([b]) == b;
  }

  /** The percentage list of a segment sequence. */
  function SegmentPercents(segs: seq<Segment>): (r: seq<real>)
    ensures |r| == |segs| && forall k | 0 <= k < |segs| :: r[k] == segs[k].percent
  {
    seq(|segs|, k requires 0 <= k < |segs| => segs[k].percent)
  }

  /** A drawn bar's percentages add up to 100. */
  lemma BarPercentagesSumTo100(values: seq<real>, labels: seq<string>)
    requires Bar(values, labels).Ok? && values != []
    ensures Sum(SegmentPercents(Bar(values, labels).value)) == 100.0
  {
    var idx := SortedIndices(values);
    var sorted := Permute(values, idx);
    var total := Sum(sorted);
    SumPermuted(values);
    SumPercentages(sorted, total);
    var segs := Bar(values, labels).value;
    assert Sum(sorted) / total * 100.0 == 100.0;
    assert SegmentPercents(segs) == Percentages(sorted, total);
  }

  /** With nonnegative values, every percentage of a drawn bar lies in [0, 100]. */
  lemma BarPercentagesInRange(values: seq<real>, labels: seq<string>, k: nat)
    requires Bar(values, labels).Ok? && k < |values|
    requires forall j | 0 <= j < |values| :: values[j] >= 0.0
    ensures 0.0 <= Bar(values, labels).value[k].percent <= 100.0
  {
    var idx := SortedIndices(values);
    var total := Sum(values);
    var x := values[idx[k]];
    ElementAtMostSum(values, idx[k]);
    ShareBounds(x, total, Bar(values, labels).value[k].percent);
  }

  /**
   * Every value of the input is drawn exactly once, beside the label of its
   * original position: some segment carries it, and only one position of the
   * drawing order holds its index.
   */
  lemma BarPairsWithLabels(values: seq<real>, labels: seq<string>, i: nat)
    requires Bar(values, labels).Ok? && i < |values|
    ensures var segs := Bar(values, labels).value;
      exists k | 0 <= k < |segs| :: segs[k].name == labels[i] && segs[k].value == values[i]
    ensures var idx := SortedIndices(values);
      forall k1, k2 | 0 <= k1 < |idx| && 0 <= k2 < |idx| && idx[k1] == i && idx[k2] == i :: k1 == k2
  {
    var idx := SortedIndices(values);
    assert i in idx;
    var k :| 0 <= k < |idx| && idx[k] == i;
    assert Bar(values, labels).value[k].name == labels[i];
  }

  /** A drawn bar's segments are non-increasing in value. */
  lemma BarDescending(values: seq<real>, labels: seq<string>, p: nat, q: nat)
    requires Bar(values, labels).Ok? && p < q < |values|
    ensures Bar(values, labels).value[p].value >= Bar(values, labels).value[q].value
  {
    SortedDescendingStable(values, p, q);
  }

  /** Two values are drawn in their own order unless the second is strictly larger. */
  lemma PairOrder(a: real, b: real)
    ensures SortedIndices([a, b]) == if a >= b then [0, 1] else [1, 0]
  {
    var s: seq<nat> := if a >= b then [0, 1] else [1, 0];
    assert Ordered([a, b], s);
    assert HoldsRange(s, 2);
    SortedIndicesUnique([a, b], s);
  }

  /** The bar over two values with a nonzero total, segment by segment. */
  lemma BarOfPair(a: real, b: real, labels: seq<string>)
    requires |labels| >= 2 && a + b != 0.0
    ensures Bar([a, b], labels) == Ok(
      if a >= b then [Segment(labels[0], a, a / (a + b) * 100.0), Segment(labels[1], b, b / (a + b) * 100.0)]
      else [Segment(labels[1], b, b / (a + b) * 100.0), Segment(labels[0], a, a / (a + b) * 100.0)])
  {
    PairOrder(a, b);
    SumPair(a, b);
    var r := Bar([a, b], labels);
    assert r.Ok?;
    var segs := r.value;
    var pa := a / (a + b) * 100.0;
    var pb := b / (a + b) * 100.0;
    if a >= b {
      ShareValue(a, a + b, segs[0].percent);
      ShareValue(b, a + b, segs[1].percent);
      assert segs == [Segment(labels[0], a, pa), Segment(labels[1], b, pb)];
    } else {
      ShareValue(b, a + b, segs[0].percent);
      ShareValue(a, a + b, segs[1].percent);
      assert segs == [Segment(labels[1], b, pb), Segment(labels[0], a, pa)];
    }
  }

  /** A percentage recovered from its defining product. */
  lemma ShareValue(part: real, total: real, pct: real)
    requires pct * total == part * 100.0 && total != 0.0
    ensures pct == part / total * 100.0
  {
  }
}
