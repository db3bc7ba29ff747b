/** The k largest logits kept by insertion (anedraftimpl/ane_draft_darwin.go). */
module TopK {

  import opened Speculative

  datatype Sample = Sample(index: nat, value: F32)

  /** Larger numbers first, NaN after all of them. */
  predicate Ahead(x: F32, y: F32) {
    Greater(x, y) || (x.Num? && !y.Num?)
  }

  /** The stable descending order of positions: equal values come in the order they have. */
  predicate Before(xs: seq<F32>, a: nat, b: nat)
    requires a < |xs| && b < |xs|
  {
    Ahead(xs[a], xs[b]) || (a < b && !Ahead(xs[b], xs[a]))
  }

  /** By the values: a greater number is before a smaller one, any number before a NaN, and of two
      equal numbers or two NaN the earlier. */
  lemma BeforeMeans(xs: seq<F32>, a: nat, b: nat)
    requires a < |xs| && b < |xs|
    ensures Before(xs, a, b) <==>
      || (xs[a].Num? && xs[b].NaN?)
      || (xs[a].Num? && xs[b].Num? && (xs[a].v > xs[b].v || (xs[a].v == xs[b].v && a < b)))
      || (xs[a].NaN? && xs[b].NaN? && a < b)
  {
  }

  ghost predicate Holds(best: seq<Sample>, m: nat) {
    exists j :: 0 <= j < |best| && best[j].index == m
  }

  /** best is the beginning of the first n values of xs in that order, of length k or all
      of it. */
  ghost predicate Leading(xs: seq<F32>, best: seq<Sample>, n: nat, k: nat)
    requires n <= |xs|
  {
    |best| == (if n < k then n else k)
    && (forall j :: 0 <= j < |best| ==> best[j].index < n && best[j].value == xs[best[j].index])
    && (forall i, j :: 0 <= i < j < |best| ==> Before(xs, best[i].index, best[j].index))
    && (forall m, j :: 0 <= m < n && !Holds(best, m) && 0 <= j < |best| ==> Before(xs, best[j].index, m))
    && (n <= k ==> forall m :: 0 <= m < n ==> Holds(best, m))
  }

  /** Among numbers: the values go down, equal ones in the order they have, and nothing that was left
      out is larger than anything kept. */
  lemma LeadingNumbers(xs: seq<F32>, best: seq<Sample>, k: nat, i: nat, j: nat, m: nat)
    requires Leading(xs, best, |xs|, k) && forall l :: 0 <= l < |xs| ==> xs[l].Num?
    requires i < j < |best| && m < |xs| && forall l :: 0 <= l < |best| ==> best[l].index != m
    ensures |best| == (if k < |xs| then k else |xs|) && best[i].value.Num? && best[j].value.Num?
    ensures best[i].value == xs[best[i].index] && best[i].value.v >= best[j].value.v >= xs[m].v
    ensures best[i].value == best[j].value ==> best[i].index < best[j].index
    ensures best[j].value.v == xs[m].v ==> best[j].index < m
  {
    assert !Holds(best, m);
    BeforeMeans(xs, best[i].index, best[j].index);
    BeforeMeans(xs, best[j].index, m);
    hide Before;
  }

  /** There is only one such beginning. */
  lemma {:induction false} LeadingIsUnique(xs: seq<F32>, a: seq<Sample>, b: seq<Sample>, n: nat, k: nat, i: nat)
    requires n <= |xs| && Leading(xs, a, n, k) && Leading(xs, b, n, k) && i < |a|
    ensures a[i] == b[i]
    decreases i
  {
    forall j | 0 <= j < i
      ensures a[j] == b[j]
    {
      LeadingIsUnique(xs, a, b, n, k, j);
    }
    var p, q := a[i].index, b[i].index;
    if p != q {
      NotLater(xs, a, b, n, k, i);
      NotLater(xs, b, a, n, k, i);
    }
  }

  lemma Irreflexive(xs: seq<F32>, p: nat, q: nat)
    requires p < |xs| && q < |xs| && Before(xs, p, q)
    ensures p != q
  {
  }

  /** The i-th of b does not come before the i-th of a, if those before agree. */
  lemma NotLater(xs: seq<F32>, a: seq<Sample>, b: seq<Sample>, n: nat, k: nat, i: nat)
    requires n <= |xs| && Leading(xs, a, n, k) && Leading(xs, b, n, k) && i < |a|
    requires forall j :: 0 <= j < i ==> a[j] == b[j]
    requires a[i].index != b[i].index
    ensures Before(xs, a[i].index, b[i].index)
  {
    var q := b[i].index;
    forall j | 0 <= j < i
      ensures a[j].index != q
    {
      Irreflexive(xs, b[j].index, q);
    }
    if Holds(a, q) {
      var j :| 0 <= j < |a| && a[j].index == q;
      assert j > i;
    }
  }

  function Insert(best: seq<Sample>, j: nat, s: Sample): (all: seq<Sample>)
    requires j <= |best|
    ensures |all| == |best| + 1
    ensures forall l :: 0 <= l < |all| ==> all[l] == if l < j then best[l] else if l == j then s else best[l - 1]
  {
    best[..j] + [s] + best[j..]
  }

  /** Where the next value goes: before the first sample it is greater than. */
  function Place(best: seq<Sample>, v: F32): (j: nat)
    ensures j <= |best| && forall l :: 0 <= l < j ==> !Greater(v, best[l].value)
    ensures j < |best| ==> Greater(v, best[j].value)
  {
    if best == [] || Greater(v, best[0].value) then 0 else
      var j := Place(best[1..], v);
      assert forall l :: 0 < l < |best| ==> best[l] == best[1..][l - 1];
      j + 1
  }

  /** The list after one value more, and after the first n values. */
  function Next(best: seq<Sample>, i: nat, v: F32, k: nat): seq<Sample> {
    var all := Insert(best, Place(best, v), Sample(i, v));
    if |all| > k then all[..k] else all
  }

  function Kept(xs: seq<F32>, n: nat, k: nat): seq<Sample>
    requires n <= |xs|
  {
    if n == 0 then [] else Next(Kept(xs, n - 1, k), n - 1, xs[n - 1], k)
  }

  /** One round of the loop. */
  method InsertNext(best: seq<Sample>, i: nat, v: F32, kept: nat) returns (after: seq<Sample>)
    requires |best| <= kept
    ensures after == Next(best, i, v, kept)
  {
    var j := 0;
    while j < |best| && !Greater(v, best[j].value)
      invariant 0 <= j <= |best| && forall l :: 0 <= l < j ==> !Greater(v, best[l].value)
    {
      j := j + 1;
    }
    assert j == Place(best, v);
    after := best;
    if j < |best| {
      after := Insert(best, j, Sample(i, v));
      if |after| > kept {
        after := after[..kept];
      }
    } else {
      assert Insert(best, |best|, Sample(i, v)) == best + [Sample(i, v)];
      if |best| < kept {
        after := best + [Sample(i, v)];
      }
    }
  }

  /** Every entry is a sample of the first n values; there are k, or all. */
  ghost predicate SamplesOf(xs: seq<F32>, best: seq<Sample>, n: nat, k: nat)
    requires n <= |xs|
  {
    |best| == (if n < k then n else k)
    && forall j :: 0 <= j < |best| ==> best[j].index < n && best[j].value == xs[best[j].index]
  }

  lemma NextSamples(xs: seq<F32>, best: seq<Sample>, n: nat, k: nat)
    requires n < |xs| && k > 0 && SamplesOf(xs, best, n, k)
    ensures SamplesOf(xs, Next(best, n, xs[n], k), n + 1, k)
  {
    hide Place;
  }

  lemma {:induction false} KeptSamples(xs: seq<F32>, n: nat, k: nat)
    requires n <= |xs| && k > 0
    ensures SamplesOf(xs, Kept(xs, n, k), n, k)
  {
    hide Next, SamplesOf;
    if n == 0 {
      NoSamples(xs, k);
    } else {
      KeptSamples(xs, n - 1, k);
      NextSamples(xs, Kept(xs, n - 1, k), n - 1, k);
    }
  }

  lemma NoSamples(xs: seq<F32>, k: nat)
    ensures SamplesOf(xs, [], 0, k)
  {
  }

  // ---- what a NaN does to the list --------------------------------------------------------

  function FirstNaN(xs: seq<F32>): (p: nat)
    ensures p <= |xs| && (forall i :: 0 <= i < p ==> xs[i].Num?) && (p < |xs| ==> xs[p].NaN?)
  {
    if xs == [] || xs[0].NaN? then 0 else
      var p := FirstNaN(xs[1..]);
      assert forall i :: 0 < i < |xs| ==> xs[i] == xs[1..][i - 1];
      p + 1
  }

  /** Value l gets in front of a NaN that came p-th: it came before, or it is greater than a
      number that did. */
  predicate Front(xs: seq<F32>, p: nat, l: nat)
    requires p <= |xs| && l < |xs|
  {
    l < p || (p < l && exists j :: 0 <= j < p && Greater(xs[l], xs[j]))
  }

  /** How many of the first n values do. */
  function Fronts(xs: seq<F32>, p: nat, n: nat): (c: nat)
    requires p <= |xs| && n <= |xs|
    ensures c <= n && (p < n ==> c < n) && (n <= p ==> c == n) && (p <= n ==> p <= c)
  {
    if n == 0 then 0 else Fronts(xs, p, n - 1) + if Front(xs, p, n - 1) then 1 else 0
  }

  /** All numbers among the first n values do. */
  predicate NumbersInFront(xs: seq<F32>, p: nat, n: nat)
    requires p <= |xs| && n <= |xs|
  {
    forall l :: 0 <= l < n && xs[l].Num? ==> Front(xs, p, l)
  }

  /** The first NaN does no harm to a list of k: enough values get in front of it to push it
      out, or every number gets in front of it. */
  predicate Unobstructed(xs: seq<F32>, k: nat) {
    var p := FirstNaN(xs);
    Fronts(xs, p, |xs|) >= k || NumbersInFront(xs, p, |xs|)
  }

  function Cap(c: nat, k: nat): nat {
    if c < k then c else k
  }

  /** The first g samples are front values, in order; behind them comes the NaN, if there is
      room, and nothing that belongs in front. A front value is left out only by k better
      ones. */
  ghost predicate Parted(xs: seq<F32>, p: nat, best: seq<Sample>, n: nat, k: nat, g: nat)
    requires p <= |xs| && n <= |xs|
  {
    SamplesOf(xs, best, n, k) && g <= |best| && g <= k
    && (forall j :: 0 <= j < |best| ==> (Front(xs, p, best[j].index) <==> j < g))
    && (p < n && g < k ==> g < |best| && best[g].index == p)
    && (forall i, j :: 0 <= i < j < g ==> Before(xs, best[i].index, best[j].index))
    && (forall m :: 0 <= m < n && Front(xs, p, m) && !Holds(best, m) ==> g == k && AfterFirst(xs, best, g, m))
    && (n <= k ==> forall m :: 0 <= m < n ==> Holds(best, m))
  }

  ghost predicate AfterFirst(xs: seq<F32>, best: seq<Sample>, g: nat, m: nat)
    requires m < |xs|
  {
    forall j :: 0 <= j < g && j < |best| && best[j].index < |xs| ==> Before(xs, best[j].index, m)
  }

  /** The samples behind the first g come in the order of their positions, and before every
      NaN that is left out. */
  ghost predicate RestInOrder(xs: seq<F32>, best: seq<Sample>, n: nat, g: nat)
    requires n <= |xs|
  {
    (forall i, j :: g <= i < j < |best| ==> best[i].index < best[j].index)
    && (forall m, j :: 0 <= m < n && xs[m].NaN? && !Holds(best, m) && g <= j < |best| ==> best[j].index < m)
  }

  lemma FrontIsNumber(xs: seq<F32>, p: nat, l: nat)
    requires p == FirstNaN(xs) && l < |xs| && Front(xs, p, l)
    ensures xs[l].Num?
  {
  }

  /** A number that is no front value is not greater than any front value. */
  lemma OthersBelow(xs: seq<F32>, p: nat, l: nat, m: nat)
    requires p == FirstNaN(xs) && l < |xs| && m < |xs| && Front(xs, p, l) && !Front(xs, p, m)
    ensures !Greater(xs[m], xs[l])
    ensures Before(xs, l, m)
  {
    if l > p {
      var j :| 0 <= j < p && Greater(xs[l], xs[j]);
      assert m > p ==> !Greater(xs[m], xs[j]);
    }
  }

  /** Where a value goes: a front value among those, any other behind the NaN. */
  lemma PlaceOfNext(xs: seq<F32>, p: nat, best: seq<Sample>, n: nat, k: nat, g: nat)
    requires p == FirstNaN(xs) && n < |xs| && k > 0 && Parted(xs, p, best, n, k, g) && g == Cap(Fronts(xs, p, n), k)
    ensures var j := Place(best, xs[n]);
      if Front(xs, p, n) then j <= g else (j == |best| == g || (g < j && (g < k || j == |best|)))
  {
    var j := Place(best, xs[n]);
    if Front(xs, p, n) {
      if p < n && g < k {
        var i :| 0 <= i < p && Greater(xs[n], xs[i]);
        assert Front(xs, p, i) && Holds(best, i);
        var l :| 0 <= l < |best| && best[l].index == i;
        assert l < g && j <= l;
      }
    } else {
      forall l | 0 <= l < g
        ensures !Greater(xs[n], best[l].value)
      {
        OthersBelow(xs, p, best[l].index, n);
      }
    }
  }

  /** The samples of a list that gains one at j and is cut at k. */
  lemma InsertHolds(best: seq<Sample>, j: nat, s: Sample, k: nat, m: nat)
    requires j <= |best| <= k && k > 0
    ensures var all := Insert(best, j, s); var after := if |all| > k then all[..k] else all;
      && (m == s.index && j < k ==> Holds(after, m))
      && (Holds(best, m) ==> Holds(after, m) || (|best| == k && j < k && best[k - 1].index == m))
  {
    var all := Insert(best, j, s);
    var after := if |all| > k then all[..k] else all;
    if j < k {
      assert after[j] == s;
    }
    if Holds(best, m) {
      var g :| 0 <= g < |best| && best[g].index == m;
      var h := if g < j then g else g + 1;
      if h < k {
        assert after[h] == all[h] == best[g];
      }
    }
  }

  lemma InsertAddsOne(best: seq<Sample>, j: nat, s: Sample, k: nat, m: nat)
    requires j <= |best| <= k && m != s.index && !Holds(best, m)
    ensures var all := Insert(best, j, s); !Holds(if |all| > k then all[..k] else all, m)
  {
    var all := Insert(best, j, s);
    forall h | 0 <= h < |all|
      ensures all[h].index != m
    {
      if h < j {
        assert best[h].index != m;
      } else if h > j {
        assert best[h - 1].index != m;
      }
    }
  }

  lemma NextHolds(best: seq<Sample>, n: nat, v: F32, k: nat, m: nat)
    requires |best| == Cap(n, k) && k > 0
    ensures var j, after := Place(best, v), Next(best, n, v, k);
      && (m != n && !Holds(best, m) ==> !Holds(after, m))
      && (m == n && j < k ==> Holds(after, m))
      && (Holds(best, m) ==> Holds(after, m) || (|best| == k && j < k && best[k - 1].index == m))
  {
    hide Holds, Insert, Greater;
    InsertHolds(best, Place(best, v), Sample(n, v), k, m);
    if m != n && !Holds(best, m) {
      InsertAddsOne(best, Place(best, v), Sample(n, v), k, m);
    }
  }

  /** A front value that is put in its place. */
  lemma FrontOrder(xs: seq<F32>, p: nat, best: seq<Sample>, n: nat, k: nat, g: nat, a: nat, b: nat)
    requires p == FirstNaN(xs) && n < |xs| && Parted(xs, p, best, n, k, g) && Front(xs, p, n)
    requires Place(best, xs[n]) <= g && a < b <= g
    ensures var all := Insert(best, Place(best, xs[n]), Sample(n, xs[n]));
      all[a].index < |xs| && all[b].index < |xs| && Before(xs, all[a].index, all[b].index)
  {
    var j := Place(best, xs[n]);
    FrontIsNumber(xs, p, n);
    if a != j && b == j {
      FrontIsNumber(xs, p, best[a].index);
    }
    if a == j && b - 1 > j {
      assert Before(xs, best[j].index, best[b - 1].index);
    }
  }

  /** What comes after all front values also comes after the new one. */
  lemma FrontBefore(xs: seq<F32>, p: nat, best: seq<Sample>, n: nat, k: nat, m: nat)
    requires p == FirstNaN(xs) && n < |xs| && m < n && Parted(xs, p, best, n, k, k) && Front(xs, p, n)
    requires Place(best, xs[n]) < k && AfterFirst(xs, best, k, m)
    ensures Before(xs, n, m)
  {
    var j := Place(best, xs[n]);
    assert Before(xs, best[j].index, m);
  }

  lemma FrontLeftOut(xs: seq<F32>, p: nat, best: seq<Sample>, n: nat, k: nat, g: nat, m: nat)
    requires p == FirstNaN(xs) && n < |xs| && k > 0 && Parted(xs, p, best, n, k, g) && Front(xs, p, n)
    requires Place(best, xs[n]) <= g && m <= n && Front(xs, p, m) && !Holds(Next(best, n, xs[n], k), m)
    ensures g == k && AfterFirst(xs, Next(best, n, xs[n], k), k, m)
  {
    var j := Place(best, xs[n]);
    var all, after := Insert(best, Place(best, xs[n]), Sample(n, xs[n])), Next(best, n, xs[n], k);
    NextHolds(best, n, xs[n], k, m);
    forall l | 0 <= l < k && l < |after| && after[l].index < |xs|
      ensures Before(xs, after[l].index, m)
    {
      if all[k].index == m {
        FrontOrder(xs, p, best, n, k, g, l, k);
      } else if l == j {
        FrontBefore(xs, p, best, n, k, m);
      }
    }
  }

  /** Which entries are front values, and where the NaN is, after a front value. */
  lemma FrontShifts(xs: seq<F32>, p: nat, best: seq<Sample>, n: nat, k: nat, g: nat)
    requires p == FirstNaN(xs) && n < |xs| && k > 0 && Parted(xs, p, best, n, k, g)
    requires Front(xs, p, n) && Place(best, xs[n]) <= g
    ensures var after, g' := Next(best, n, xs[n], k), Cap(g + 1, k);
      && |after| == Cap(n + 1, k) && g' <= |after|
      && (forall j :: 0 <= j < |after| ==> after[j].index < |xs| && (Front(xs, p, after[j].index) <==> j < g'))
      && (p < n + 1 && g' < k ==> g' < |after| && after[g'].index == p)
  {
    hide Before, Holds, Place, Front, AfterFirst, Next;
    NotItsFront(xs, p);
    NextAt(best, n, xs[n], k, g);
    var after, g' := Next(best, n, xs[n], k), Cap(g + 1, k);
    if g + 1 < k {
      NextAt(best, n, xs[n], k, g + 1);
    }
    forall l | 0 <= l < |after|
      ensures after[l].index < |xs| && (Front(xs, p, after[l].index) <==> l < g')
    {
      NextAt(best, n, xs[n], k, l);
    }
  }

  /** The entries of the next list. */
  lemma NextAt(best: seq<Sample>, n: nat, v: F32, k: nat, l: nat)
    requires |best| == Cap(n, k)
    ensures |Next(best, n, v, k)| == Cap(n + 1, k)
    ensures l < Cap(n + 1, k) ==>
      Next(best, n, v, k)[l]
      == if l < Place(best, v) then best[l] else if l == Place(best, v) then Sample(n, v) else best[l - 1]
  {
    hide Place;
  }

  lemma NotItsFront(xs: seq<F32>, p: nat)
    requires p <= |xs|
    ensures p < |xs| ==> !Front(xs, p, p)
  {
  }

  /** The same after any other value: the entries in front stay. */
  lemma FrontStays(xs: seq<F32>, p: nat, best: seq<Sample>, n: nat, k: nat, g: nat)
    requires p == FirstNaN(xs) && n < |xs| && k > 0 && Parted(xs, p, best, n, k, g) && g == Cap(Fronts(xs, p, n), k)
    requires !Front(xs, p, n)
    ensures var after := Next(best, n, xs[n], k);
      && |after| == Cap(n + 1, k) && g <= |after|
      && (forall j :: 0 <= j < |after| ==> after[j].index < |xs| && (Front(xs, p, after[j].index) <==> j < g))
      && (p < n + 1 && g < k ==> g < |after| && after[g].index == p)
      && (forall j :: 0 <= j < g ==> after[j] == best[j])
  {
    PlaceOfNext(xs, p, best, n, k, g);
    hide Before, Holds, Place, Front, AfterFirst, Next;
    EarlierIsFront(xs, p, n);
    var after := Next(best, n, xs[n], k);
    NextAt(best, n, xs[n], k, g);
    forall l | 0 <= l < |after|
      ensures after[l].index < |xs| && (Front(xs, p, after[l].index) <==> l < g)
      ensures l < g ==> after[l] == best[l]
    {
      NextAt(best, n, xs[n], k, l);
    }
  }

  lemma EarlierIsFront(xs: seq<F32>, p: nat, n: nat)
    requires p <= |xs| && n < |xs|
    ensures n < p ==> Front(xs, p, n)
  {
  }

  lemma AllHeld(best: seq<Sample>, n: nat, v: F32, k: nat)
    requires |best| == Cap(n, k) && k > 0 && (n <= k ==> forall m :: 0 <= m < n ==> Holds(best, m))
    ensures n + 1 <= k ==> forall m :: 0 <= m < n + 1 ==> Holds(Next(best, n, v, k), m)
  {
    if n + 1 <= k {
      forall m | 0 <= m < n + 1
        ensures Holds(Next(best, n, v, k), m)
      {
        NextHolds(best, n, v, k, m);
      }
    }
  }

  lemma IsParted(xs: seq<F32>, p: nat, best: seq<Sample>, n: nat, k: nat, g: nat)
    requires p <= |xs| && n <= |xs| && SamplesOf(xs, best, n, k) && g <= |best| && g <= k
    requires forall j :: 0 <= j < |best| ==> (Front(xs, p, best[j].index) <==> j < g)
    requires p < n && g < k ==> g < |best| && best[g].index == p
    requires forall i, j :: 0 <= i < j < g ==> Before(xs, best[i].index, best[j].index)
    requires forall m :: 0 <= m < n && Front(xs, p, m) && !Holds(best, m) ==> g == k && AfterFirst(xs, best, g, m)
    requires n <= k ==> forall m :: 0 <= m < n ==> Holds(best, m)
    ensures Parted(xs, p, best, n, k, g)
  {
    hide Before, Holds, Front, AfterFirst;
  }

  lemma SizeParted(xs: seq<F32>, p: nat, best: seq<Sample>, n: nat, k: nat, g: nat)
    requires p <= |xs| && n <= |xs| && Parted(xs, p, best, n, k, g)
    ensures SamplesOf(xs, best, n, k) && |best| == Cap(n, k) && g <= k
    ensures n <= k ==> forall m :: 0 <= m < n ==> Holds(best, m)
  {
  }

  lemma NextFront(xs: seq<F32>, p: nat, best: seq<Sample>, n: nat, k: nat, g: nat)
    requires p == FirstNaN(xs) && n < |xs| && k > 0 && Parted(xs, p, best, n, k, g) && g == Cap(Fronts(xs, p, n), k)
    requires Front(xs, p, n)
    ensures Parted(xs, p, Next(best, n, xs[n], k), n + 1, k, Cap(g + 1, k))
  {
    hide Place, Before, Holds, Front, AfterFirst, Parted, SamplesOf, Fronts;
    SizeParted(xs, p, best, n, k, g);
    PlaceOfNext(xs, p, best, n, k, g);
    NextSamples(xs, best, n, k);
    FrontShifts(xs, p, best, n, k, g);
    AllHeld(best, n, xs[n], k);
    var after, g' := Next(best, n, xs[n], k), Cap(g + 1, k);
    forall i, j | 0 <= i < j < g'
      ensures Before(xs, after[i].index, after[j].index)
    {
      FrontOrder(xs, p, best, n, k, g, i, j);
    }
    forall m | 0 <= m < n + 1 && Front(xs, p, m) && !Holds(after, m)
      ensures g' == k && AfterFirst(xs, after, g', m)
    {
      FrontLeftOut(xs, p, best, n, k, g, m);
    }
    IsParted(xs, p, after, n + 1, k, g');
  }

  lemma OtherLeftOut(xs: seq<F32>, p: nat, best: seq<Sample>, n: nat, k: nat, g: nat, m: nat)
    requires p == FirstNaN(xs) && n < |xs| && k > 0 && Parted(xs, p, best, n, k, g) && g == Cap(Fronts(xs, p, n), k)
    requires !Front(xs, p, n) && m <= n && Front(xs, p, m) && !Holds(Next(best, n, xs[n], k), m)
    ensures g == k && AfterFirst(xs, Next(best, n, xs[n], k), g, m)
  {
    FrontStays(xs, p, best, n, k, g);
    hide Place, Next, Front, Before;
    NextHolds(best, n, xs[n], k, m);
    var after := Next(best, n, xs[n], k);
    forall l | 0 <= l < |best|
      ensures best[l].index != m
    {
      if l < g {
        assert after[l] == best[l];
      }
    }
  }

  lemma NextOther(xs: seq<F32>, p: nat, best: seq<Sample>, n: nat, k: nat, g: nat)
    requires p == FirstNaN(xs) && n < |xs| && k > 0 && Parted(xs, p, best, n, k, g) && g == Cap(Fronts(xs, p, n), k)
    requires !Front(xs, p, n)
    ensures Parted(xs, p, Next(best, n, xs[n], k), n + 1, k, g)
  {
    hide Place, Next, Before, Holds, Front, AfterFirst, SamplesOf, Fronts;
    SizeParted(xs, p, best, n, k, g);
    FrontStays(xs, p, best, n, k, g);
    NextSamples(xs, best, n, k);
    AllHeld(best, n, xs[n], k);
    var after := Next(best, n, xs[n], k);
    forall m | 0 <= m < n + 1 && Front(xs, p, m) && !Holds(after, m)
      ensures g == k && AfterFirst(xs, after, g, m)
    {
      OtherLeftOut(xs, p, best, n, k, g, m);
    }
    IsParted(xs, p, after, n + 1, k, g);
  }

  lemma NothingParted(xs: seq<F32>, p: nat, k: nat)
    requires p <= |xs| && k > 0
    ensures Parted(xs, p, [], 0, k, 0) && Fronts(xs, p, 0) == 0
  {
  }

  /** The shape of the list after n values. */
  lemma {:induction false} KeptParted(xs: seq<F32>, n: nat, k: nat)
    requires n <= |xs| && k > 0
    ensures var p := FirstNaN(xs);
      Parted(xs, p, Kept(xs, n, k), n, k, Cap(Fronts(xs, p, n), k))
  {
    hide Next, Place, Before, Front, Parted;
    var p := FirstNaN(xs);
    if n == 0 {
      NothingParted(xs, p, k);
    } else {
      var best, g := Kept(xs, n - 1, k), Cap(Fronts(xs, p, n - 1), k);
      KeptParted(xs, n - 1, k);
      if Front(xs, p, n - 1) {
        NextFront(xs, p, best, n - 1, k, g);
      } else {
        NextOther(xs, p, best, n - 1, k, g);
      }
    }
  }

  // ---- exactly when the list is the leading one ------------------------------------------------

  /** A front value shifts the rest, of which the last entry may be pushed out. */
  lemma RestAfterFront(xs: seq<F32>, p: nat, best: seq<Sample>, n: nat, k: nat, g: nat)
    requires p == FirstNaN(xs) && n < |xs| && k > 0 && Parted(xs, p, best, n, k, g) && g == Cap(Fronts(xs, p, n), k)
    requires Front(xs, p, n) && RestInOrder(xs, best, n, g)
    ensures RestInOrder(xs, Next(best, n, xs[n], k), n + 1, Cap(g + 1, k))
  {
    PlaceOfNext(xs, p, best, n, k, g);
    SizeParted(xs, p, best, n, k, g);
    FrontIsNumber(xs, p, n);
    hide Place, Next, Front, Parted, Before, Holds, Fronts, SamplesOf;
    RestShifts(xs, best, n, k, g);
  }

  lemma RestShifts(xs: seq<F32>, best: seq<Sample>, n: nat, k: nat, g: nat)
    requires n < |xs| && 0 < k && |best| == Cap(n, k) && g <= |best| && Place(best, xs[n]) <= g && xs[n].Num?
    requires RestInOrder(xs, best, n, g)
    ensures RestInOrder(xs, Next(best, n, xs[n], k), n + 1, Cap(g + 1, k))
  {
    hide Place, Next, Holds;
    var after, g' := Next(best, n, xs[n], k), Cap(g + 1, k);
    NextAt(best, n, xs[n], k, 0);
    forall j | g' <= j < |after|
      ensures 0 < j <= |best| && after[j] == best[j - 1]
    {
      NextAt(best, n, xs[n], k, j);
    }
    forall m, j | 0 <= m < n + 1 && xs[m].NaN? && !Holds(after, m) && g' <= j < |after|
      ensures after[j].index < m
    {
      NextHolds(best, n, xs[n], k, m);
      assert after[j] == best[j - 1];
    }
  }

  lemma RestAfterNaN(xs: seq<F32>, p: nat, best: seq<Sample>, n: nat, k: nat, g: nat)
    requires p == FirstNaN(xs) && n < |xs| && k > 0 && Parted(xs, p, best, n, k, g) && g == Cap(Fronts(xs, p, n), k)
    requires xs[n].NaN? && RestInOrder(xs, best, n, g)
    ensures RestInOrder(xs, Next(best, n, xs[n], k), n + 1, g)
  {
    SizeParted(xs, p, best, n, k, g);
    assert Place(best, xs[n]) == |best|;
    hide Place, Next, Front, Parted, Before, Holds, Fronts;
    var after := Next(best, n, xs[n], k);
    NextAt(best, n, xs[n], k, 0);
    forall j | 0 <= j < |after|
      ensures after[j] == if j < |best| then best[j] else Sample(n, xs[n])
    {
      NextAt(best, n, xs[n], k, j);
    }
    forall m, j | 0 <= m < n + 1 && xs[m].NaN? && !Holds(after, m) && g <= j < |after|
      ensures after[j].index < m
    {
      NextHolds(best, n, xs[n], k, m);
    }
  }

  lemma NothingKept(xs: seq<F32>, k: nat)
    ensures RestInOrder(xs, [], 0, Cap(0, k))
  {
  }

  lemma {:induction false} KeptRest(xs: seq<F32>, n: nat, k: nat)
    requires n <= |xs| && k > 0 && NumbersInFront(xs, FirstNaN(xs), n)
    ensures RestInOrder(xs, Kept(xs, n, k), n, Cap(Fronts(xs, FirstNaN(xs), n), k))
  {
    hide Next, Place, Before, Parted, RestInOrder, Holds, Front;
    var p := FirstNaN(xs);
    if n == 0 {
      NothingKept(xs, k);
    } else {
      var best, g := Kept(xs, n - 1, k), Cap(Fronts(xs, p, n - 1), k);
      KeptRest(xs, n - 1, k);
      KeptParted(xs, n - 1, k);
      if Front(xs, p, n - 1) {
        RestAfterFront(xs, p, best, n - 1, k, g);
      } else {
        RestAfterNaN(xs, p, best, n - 1, k, g);
      }
    }
  }

  /** Enough front values: the list holds nothing else. */
  lemma FullOfFront(xs: seq<F32>, p: nat, best: seq<Sample>, k: nat)
    requires p == FirstNaN(xs) && 0 < k <= |xs| && Parted(xs, p, best, |xs|, k, k)
    ensures Leading(xs, best, |xs|, k)
  {
    hide Before, Greater;
    forall l, m | 0 <= l < |best| && 0 <= m < |xs| && !Holds(best, m)
      ensures Before(xs, best[l].index, m)
    {
      if Front(xs, p, m) {
        assert AfterFirst(xs, best, k, m);
      } else {
        OthersBelow(xs, p, best[l].index, m);
      }
    }
    IsLeading(xs, best, |xs|, k);
  }

  /** Every number in front: behind them there are only NaN, in their order. */
  lemma FrontThenNaNs(xs: seq<F32>, p: nat, best: seq<Sample>, k: nat, g: nat)
    requires p == FirstNaN(xs) && 0 < k <= |xs| && Parted(xs, p, best, |xs|, k, g) && g < k
    requires NumbersInFront(xs, p, |xs|) && RestInOrder(xs, best, |xs|, g)
    ensures Leading(xs, best, |xs|, k)
  {
    forall l, m | 0 <= l < |best| && 0 <= m < |xs|
        && ((exists h :: l < h < |best| && best[h].index == m) || !Holds(best, m))
      ensures Before(xs, best[l].index, m)
    {
      EachBefore(xs, p, best, k, g, l, m);
    }
    IsLeading(xs, best, |xs|, k);
  }

  lemma EachBefore(xs: seq<F32>, p: nat, best: seq<Sample>, k: nat, g: nat, l: nat, m: nat)
    requires p == FirstNaN(xs) && 0 < k <= |xs| && Parted(xs, p, best, |xs|, k, g) && g < k
    requires NumbersInFront(xs, p, |xs|) && RestInOrder(xs, best, |xs|, g) && l < |best| && m < |xs|
    requires (exists h :: l < h < |best| && best[h].index == m) || !Holds(best, m)
    ensures Before(xs, best[l].index, m)
  {
    var a := best[l].index;
    if Front(xs, p, a) && !Front(xs, p, m) {
      OthersBelow(xs, p, a, m);
    }
  }

  /** A number that did not get in front of a NaN that stays is out of order. */
  lemma OtherOutOfOrder(xs: seq<F32>, p: nat, best: seq<Sample>, k: nat, g: nat, l: nat)
    requires p == FirstNaN(xs) && 0 < k <= |xs| && Parted(xs, p, best, |xs|, k, g) && g < k
    requires l < |xs| && xs[l].Num? && !Front(xs, p, l)
    ensures !Leading(xs, best, |xs|, k)
  {
    BehindTheNaN(xs, p, best, k, g, l);
    hide Parted, Before, Front;
  }

  lemma BehindTheNaN(xs: seq<F32>, p: nat, best: seq<Sample>, k: nat, g: nat, l: nat)
    requires p == FirstNaN(xs) && 0 < k <= |xs| && Parted(xs, p, best, |xs|, k, g) && g < k
    requires l < |xs| && xs[l].Num? && !Front(xs, p, l)
    ensures g < |best| && best[g].index == p < |xs| && !Before(xs, p, l)
    ensures Holds(best, l) ==> exists j :: g < j < |best| && best[j].index == l
  {
  }

  /** The insertions give the leading samples exactly if the first NaN does no harm. */
  lemma KeptLeadsIff(xs: seq<F32>, k: nat)
    requires 0 < k <= |xs|
    ensures Leading(xs, Kept(xs, |xs|, k), |xs|, k) <==> Unobstructed(xs, k)
  {
    var p := FirstNaN(xs);
    var best, g := Kept(xs, |xs|, k), Cap(Fronts(xs, p, |xs|), k);
    KeptParted(xs, |xs|, k);
    hide Parted, Leading, Kept, Front, Fronts, RestInOrder;
    if g == k {
      FullOfFront(xs, p, best, k);
    } else if NumbersInFront(xs, p, |xs|) {
      KeptRest(xs, |xs|, k);
      FrontThenNaNs(xs, p, best, k, g);
    } else {
      var l :| 0 <= l < |xs| && xs[l].Num? && !Front(xs, p, l);
      OtherOutOfOrder(xs, p, best, k, g, l);
    }
  }

  lemma IsLeading(xs: seq<F32>, best: seq<Sample>, n: nat, k: nat)
    requires n <= |xs| && SamplesOf(xs, best, n, k)
    requires forall l, h :: 0 <= l < h < |best| ==> Before(xs, best[l].index, best[h].index)
    requires forall l, m :: 0 <= l < |best| && 0 <= m < n && !Holds(best, m) ==> Before(xs, best[l].index, m)
    requires n <= k ==> forall m :: 0 <= m < n ==> Holds(best, m)
    ensures Leading(xs, best, n, k)
  {
    hide Before, Holds;
  }

  /** In particular nothing is in the way while the first k values are numbers. */
  lemma NumbersUnobstructed(xs: seq<F32>, k: nat)
    requires k <= |xs| && forall i :: 0 <= i < k ==> xs[i].Num?
    ensures Unobstructed(xs, k)
  {
  }

  /** The samples, as many as asked for if there are so many; they are the leading ones exactly
      if the first NaN does no harm. */
  method TopKSamples(xs: seq<F32>, k: int) returns (best: seq<Sample>)
    ensures var n := Wanted(xs, k);
      |best| == n && forall j :: 0 <= j < |best| ==> best[j].index < |xs| && best[j].value == xs[best[j].index]
    ensures Leading(xs, best, |xs|, if k <= 0 then 0 else k) <==> Unobstructed(xs, Wanted(xs, k))
    ensures best == Kept(xs, |xs|, Wanted(xs, k))
  {
    hide Next, Before, Unobstructed, Leading;
    best := [];
    if |xs| == 0 || k <= 0 {
      NothingWanted(xs);
      return;
    }
    var kept: nat := if k > |xs| then |xs| else k;
    for i := 0 to |xs|
      invariant best == Kept(xs, i, kept)
    {
      KeptSamples(xs, i, kept);
      best := InsertNext(best, i, xs[i], kept);
    }
    KeptSamples(xs, |xs|, kept);
    KeptLeadsIff(xs, kept);
    LeadsFurther(xs, best, kept, k);
  }

  function Wanted(xs: seq<F32>, k: int): nat {
    if k <= 0 then 0 else if k < |xs| then k else |xs|
  }

  lemma {:induction false} NoneKept(xs: seq<F32>, n: nat)
    requires n <= |xs|
    ensures Kept(xs, n, 0) == []
  {
    if n > 0 {
      NoneKept(xs, n - 1);
    }
  }

  lemma NothingWanted(xs: seq<F32>)
    ensures Kept(xs, |xs|, 0) == [] && Unobstructed(xs, 0) && Leading(xs, [], |xs|, 0)
    ensures xs == [] ==> forall k: nat :: Leading(xs, [], |xs|, k)
  {
    NoneKept(xs, |xs|);
  }

  /** To ask for more than there are is to ask for all. */
  lemma LeadsFurther(xs: seq<F32>, best: seq<Sample>, kept: nat, k: nat)
    requires kept == k || |xs| == kept <= k
    ensures Leading(xs, best, |xs|, kept) <==> Leading(xs, best, |xs|, k)
  {
  }

  /** A NaN that stays in the way: 5 is the largest number, but it does not displace the NaN
      that came first. */
  lemma NaNStaysInTheWay()
    ensures Kept([NaN, Num(5.0)], 2, 1) == [Sample(0, NaN)] && !Leading([NaN, Num(5.0)], [Sample(0, NaN)], 2, 1)
  {
    var xs := [NaN, Num(5.0)];
    assert Kept(xs, 0, 1) == [] && Kept(xs, 1, 1) == [Sample(0, NaN)];
    assert Place([Sample(0, NaN)], xs[1]) == 1;
    assert !Holds([Sample(0, NaN)], 1);
  }

  /** One that does not: 5 gets in front of it because it is greater than the number before it,
      and pushes it out. */
  lemma NaNPushedOut()
    ensures Unobstructed([Num(1.0), NaN, Num(5.0)], 2)
    ensures Leading([Num(1.0), NaN, Num(5.0)], Kept([Num(1.0), NaN, Num(5.0)], 3, 2), 3, 2)
  {
    var xs := [Num(1.0), NaN, Num(5.0)];
    assert FirstNaN(xs) == 1 && Greater(xs[2], xs[0]) && Front(xs, 1, 0) && Front(xs, 1, 2);
    assert Fronts(xs, 1, 1) == 1 && Fronts(xs, 1, 2) == 1 && Fronts(xs, 1, 3) == 2;
    KeptLeadsIff(xs, 2);
  }
}
