/** Which layers may run in one direct block (decode/plane.go): the eligible layers are cut
    into maximal runs of consecutive indices. */
module Spans {

  datatype Span = Span(startLayer: nat, layerOffset: nat, layers: seq<nat>)

  // ---- ranks of the eligible layers ------------------------------------------------------

  /** Full attention and a dense FFN. */
  predicate Eligible(linear: seq<bool>, moe: seq<bool>, i: nat)
    requires |linear| == |moe|
  {
    i < |linear| && !linear[i] && !moe[i]
  }

  ghost function EligibleBelow(linear: seq<bool>, moe: seq<bool>, i: nat): set<nat>
    requires |linear| == |moe|
  {
    set j: nat | 0 <= j < i && Eligible(linear, moe, j)
  }

  /** Every eligible layer, and no other, is mapped to the number of eligible layers before it. */
  ghost predicate Ranks(linear: seq<bool>, moe: seq<bool>, offsets: map<nat, nat>)
    requires |linear| == |moe|
  {
    forall i :: (i in offsets <==> Eligible(linear, moe, i))
      && (i in offsets ==> offsets[i] == |EligibleBelow(linear, moe, i)|)
  }

  lemma EligibleStep(linear: seq<bool>, moe: seq<bool>, i: nat)
    requires |linear| == |moe|
    ensures |EligibleBelow(linear, moe, i + 1)|
      == |EligibleBelow(linear, moe, i)| + if Eligible(linear, moe, i) then 1 else 0
  {
    var below := EligibleBelow(linear, moe, i);
    assert EligibleBelow(linear, moe, i + 1) == if Eligible(linear, moe, i) then below + {i} else below;
  }

  method FullAttentionDenseOffsets(linear: seq<bool>, moe: seq<bool>) returns (offsets: map<nat, nat>)
    requires |linear| == |moe|
    ensures Ranks(linear, moe, offsets)
  {
    offsets := map[];
    var offset := 0;
    for i := 0 to |linear|
      invariant offset == |EligibleBelow(linear, moe, i)|
      invariant forall j: nat :: j in offsets <==> j < i && Eligible(linear, moe, j)
      invariant forall j :: j in offsets ==> offsets[j] == |EligibleBelow(linear, moe, j)|
    {
      EligibleStep(linear, moe, i);
      if linear[i] || moe[i] {
        continue;
      }
      offsets := offsets[i := offset];
      offset := offset + 1;
    }
  }

  /** In plain terms: the offsets of the layers that have full attention and no experts count up
      from 0. */
  lemma OffsetsCountUp(linear: seq<bool>, moe: seq<bool>, offsets: map<nat, nat>)
    requires |linear| == |moe| && Ranks(linear, moe, offsets)
    ensures forall i: nat :: i in offsets <==> i < |linear| && !linear[i] && !moe[i]
    ensures forall i, j :: i in offsets && j in offsets && i < j ==> offsets[i] < offsets[j]
    ensures forall i :: i in offsets ==> offsets[i] < |offsets|
  {
    forall i, j | i in offsets && j in offsets && i < j
      ensures offsets[i] < offsets[j]
    {
      BelowGrows(linear, moe, i, j);
    }
    forall i | i in offsets
      ensures offsets[i] < |offsets|
    {
      BelowGrows(linear, moe, i, |linear|);
      assert EligibleBelow(linear, moe, |linear|) == offsets.Keys;
    }
  }

  lemma BelowGrows(linear: seq<bool>, moe: seq<bool>, i: nat, j: nat)
    requires |linear| == |moe| && Eligible(linear, moe, i) && i < j
    ensures |EligibleBelow(linear, moe, i)| < |EligibleBelow(linear, moe, j)|
  {
    var below := EligibleBelow(linear, moe, i);
    assert i !in below && below + {i} <= EligibleBelow(linear, moe, j);
    Fewer(below + {i}, EligibleBelow(linear, moe, j));
  }

  lemma {:induction false} Fewer(a: set<nat>, b: set<nat>)
    requires a <= b
    ensures |a| <= |b|
    decreases |a|
  {
    if a != {} {
      var x :| x in a;
      Fewer(a - {x}, b - {x});
    }
  }

  // ---- maximal runs ----------------------------------------------------------------------

  /** Layers i and i + 1 belong into one block. */
  predicate Joined(offsets: map<nat, nat>, i: nat) {
    i in offsets && i + 1 in offsets && offsets[i + 1] == offsets[i] + 1
  }

  ghost predicate Starts(offsets: map<nat, nat>, i: nat) {
    i in offsets && (i == 0 || !Joined(offsets, i - 1))
  }

  /** A span is a run of joined layers that cannot be extended within n layers, on either side. */
  ghost predicate MaximalRun(n: nat, offsets: map<nat, nat>, s: Span) {
    var e := s.startLayer + |s.layers|;
    s.layers != [] && e <= n && Starts(offsets, s.startLayer) && s.layerOffset == offsets[s.startLayer]
    && (forall k :: 0 <= k < |s.layers| ==> s.layers[k] == s.startLayer + k && s.layers[k] in offsets)
    && (forall i: nat :: s.startLayer <= i < e - 1 ==> Joined(offsets, i))
    && (e < n ==> !Joined(offsets, e - 1))
  }

  /** The spans of n layers are all the maximal runs, each under its first layer. */
  ghost predicate AllRuns(n: nat, offsets: map<nat, nat>, spans: map<nat, Span>) {
    (forall s :: s in spans ==> spans[s].startLayer == s && MaximalRun(n, offsets, spans[s]))
    && (forall s: nat :: s < n && Starts(offsets, s) ==> s in spans)
  }

  method BuildDirectSpans(n: nat, offsets: map<nat, nat>) returns (spans: map<nat, Span>)
    ensures AllRuns(n, offsets, spans)
  {
    spans := map[];
    if |offsets| == 0 {
      assert offsets == map[];
      return;
    }
    var i := 0;
    while i < n
      invariant i <= n && (i < n && i > 0 ==> !Joined(offsets, i - 1))
      invariant forall s :: s in spans ==> spans[s].startLayer == s && MaximalRun(n, offsets, spans[s])
      invariant forall s: nat :: s < i && Starts(offsets, s) ==> s in spans
      decreases n - i
    {
      if i !in offsets {
        i := i + 1;
        continue;
      }
      var layers := [i];
      var j := i + 1;
      var nextOffset := offsets[i] + 1;
      while j < n && j in offsets && offsets[j] == nextOffset
        invariant i < j <= n && |layers| == j - i && nextOffset == offsets[i] + (j - i)
        invariant forall k :: 0 <= k < |layers| ==> layers[k] == i + k && layers[k] in offsets
        invariant offsets[layers[j - 1 - i]] == nextOffset - 1
        invariant forall l :: i <= l < j - 1 ==> Joined(offsets, l)
      {
        layers := layers + [j];
        j := j + 1;
        nextOffset := nextOffset + 1;
      }
      assert j < n ==> !Joined(offsets, j - 1);
      spans := spans[i := Span(i, offsets[i], layers)];
      assert MaximalRun(n, offsets, spans[i]);
      forall s | i < s < j
        ensures !Starts(offsets, s)
      {
        assert Joined(offsets, s - 1);
      }
      i := j;
    }
  }

  ghost function Layers(spans: map<nat, Span>): set<nat> {
    set s, l | s in spans && l in spans[s].layers :: l
  }

  lemma JoinedNotEnd(n: nat, offsets: map<nat, nat>, s: Span, l: nat)
    requires MaximalRun(n, offsets, s) && 0 < l < n && Joined(offsets, l - 1)
    ensures l != s.startLayer + |s.layers| && l != s.startLayer
  {
  }

  lemma NotInside(n: nat, offsets: map<nat, nat>, s: Span, t: nat)
    requires MaximalRun(n, offsets, s) && s.startLayer < t && !Joined(offsets, t - 1)
    ensures s.startLayer + |s.layers| <= t
  {
  }

  /** Every layer lies in some run ... */
  lemma {:induction false} RunOf(n: nat, offsets: map<nat, nat>, spans: map<nat, Span>, l: nat) returns (s: nat)
    requires AllRuns(n, offsets, spans) && l < n && l in offsets
    ensures s in spans && s <= l < s + |spans[s].layers|
    decreases l
  {
    if Starts(offsets, l) {
      s := l;
    } else {
      s := RunOf(n, offsets, spans, l - 1);
      var e := s + |spans[s].layers|;
      JoinedNotEnd(n, offsets, spans[s], l);
    }
  }

  /** ... and in one only. */
  lemma RunsDisjoint(n: nat, offsets: map<nat, nat>, spans: map<nat, Span>, s: nat, t: nat)
    requires AllRuns(n, offsets, spans) && s in spans && t in spans && s < t
    ensures s + |spans[s].layers| < t || (s + |spans[s].layers| == t && !Joined(offsets, t - 1))
  {
    NotInside(n, offsets, spans[s], t);
  }

  lemma InLayers(spans: map<nat, Span>, s: nat, l: nat)
    requires s in spans && l in spans[s].layers
    ensures l in Layers(spans)
  {
  }

  lemma NotInLayers(n: nat, offsets: map<nat, nat>, spans: map<nat, Span>, l: nat)
    requires AllRuns(n, offsets, spans) && !(l in offsets && l < n)
    ensures l !in Layers(spans)
  {
  }

  /** The spans partition the layers that have an offset. */
  lemma SpansPartition(n: nat, offsets: map<nat, nat>, spans: map<nat, Span>)
    requires AllRuns(n, offsets, spans)
    ensures forall l: nat :: l in Layers(spans) <==> l in offsets && l < n
    ensures forall s, t :: s in spans && t in spans && s != t ==>
      forall l :: l in spans[s].layers ==> l !in spans[t].layers
  {
    hide Layers;
    forall l: nat
      ensures l in Layers(spans) <==> l in offsets && l < n
    {
      if l in offsets && l < n {
        var s := RunOf(n, offsets, spans, l);
        assert spans[s].layers[l - s] == l;
        InLayers(spans, s, l);
      } else {
        NotInLayers(n, offsets, spans, l);
      }
    }
    forall s, t | s in spans && t in spans && s != t
      ensures forall l :: l in spans[s].layers ==> l !in spans[t].layers
    {
      if s < t {
        RunsDisjoint(n, offsets, spans, s, t);
      } else {
        RunsDisjoint(n, offsets, spans, t, s);
      }
    }
  }

  /** With the ranks as offsets the runs are the maximal runs of eligible layers. */
  lemma JoinedRanks(linear: seq<bool>, moe: seq<bool>, offsets: map<nat, nat>, i: nat)
    requires |linear| == |moe| && Ranks(linear, moe, offsets)
    ensures Joined(offsets, i) <==> Eligible(linear, moe, i) && Eligible(linear, moe, i + 1)
  {
    EligibleStep(linear, moe, i);
  }

  /** Only the first eligible layer has rank 0, and it starts a span. */
  lemma FirstSpan(linear: seq<bool>, moe: seq<bool>, offsets: map<nat, nat>, spans: map<nat, Span>)
    requires |linear| == |moe| && Ranks(linear, moe, offsets) && AllRuns(|linear|, offsets, spans)
    ensures forall s, t :: s in spans && t in spans && spans[s].layerOffset == spans[t].layerOffset ==> s == t
    ensures spans != map[] ==> exists s :: s in spans && spans[s].layerOffset == 0
  {
    forall s, t | s in spans && t in spans && s < t
      ensures spans[s].layerOffset < spans[t].layerOffset
    {
      RankGrows(linear, moe, s, t);
    }
    if s :| s in spans {
      var f := FirstEligible(linear, moe, s);
      assert EligibleBelow(linear, moe, f) == {};
      if f > 0 {
        JoinedRanks(linear, moe, offsets, f - 1);
      }
      assert Starts(offsets, f);
    }
  }

  lemma RankGrows(linear: seq<bool>, moe: seq<bool>, s: nat, t: nat)
    requires |linear| == |moe| && s < t && Eligible(linear, moe, s)
    ensures |EligibleBelow(linear, moe, s)| < |EligibleBelow(linear, moe, t)|
    decreases t
  {
    EligibleStep(linear, moe, t - 1);
    if s < t - 1 {
      RankGrows(linear, moe, s, t - 1);
    }
  }

  lemma FirstEligible(linear: seq<bool>, moe: seq<bool>, s: nat) returns (f: nat)
    requires |linear| == |moe| && Eligible(linear, moe, s)
    ensures f <= s && Eligible(linear, moe, f) && EligibleBelow(linear, moe, f) == {}
    decreases s
  {
    f := s;
    if j :| j in EligibleBelow(linear, moe, s) {
      f := FirstEligible(linear, moe, j);
    }
  }

  // ---- counting and selecting ------------------------------------------------------------

  ghost predicate Disjoint(spans: map<nat, Span>) {
    (forall s :: s in spans ==> Distinct(spans[s].layers))
    && forall s, t :: s in spans && t in spans && s != t ==> forall l :: l in spans[s].layers ==> l !in spans[t].layers
  }

  ghost predicate Distinct(s: seq<nat>) {
    forall i, j :: 0 <= i < j < |s| ==> s[i] != s[j]
  }

  ghost function Members(s: seq<nat>): set<nat> {
    set x | x in s
  }

  lemma NoLayers()
    ensures Layers(map[]) == {}
  {
  }

  lemma LayersAdd(spans: map<nat, Span>, s: nat, span: Span)
    requires s !in spans
    ensures Layers(spans[s := span]) == Layers(spans) + Members(span.layers)
  {
    var more := spans[s := span];
    forall l | l in Layers(spans) + Members(span.layers)
      ensures l in Layers(more)
    {
      if l in Layers(spans) {
        var t :| t in spans && l in spans[t].layers;
        assert t in more && l in more[t].layers;
      } else {
        assert s in more && l in more[s].layers;
      }
    }
  }

  lemma {:induction false} DistinctSize(s: seq<nat>)
    requires Distinct(s)
    ensures |Members(s)| == |s|
    decreases |s|
  {
    if s == [] {
      assert Members(s) == {};
    } else {
      var n := |s| - 1;
      assert forall i :: 0 <= i < n ==> s[..n][i] == s[i];
      DistinctSize(s[..n]);
      assert s == s[..n] + [s[n]];
      assert Members(s) == Members(s[..n]) + {s[n]};
    }
  }

  lemma OwnLayersAreNew(spans: map<nat, Span>, seen: map<nat, Span>, s: nat)
    requires Disjoint(spans) && s in spans && s !in seen
    requires forall t :: t in seen ==> t in spans && seen[t] == spans[t]
    ensures Layers(seen) !! Members(spans[s].layers)
  {
    forall l | l in Layers(seen)
      ensures l !in spans[s].layers
    {
      var t :| t in seen && l in seen[t].layers;
      assert l in spans[t].layers;
    }
  }

  /** So the spans of a model hold as many layers as are eligible. */
  lemma SpansHoldAllEligible(linear: seq<bool>, moe: seq<bool>, offsets: map<nat, nat>, spans: map<nat, Span>)
    requires |linear| == |moe| && Ranks(linear, moe, offsets) && AllRuns(|linear|, offsets, spans)
    ensures Disjoint(spans) && |Layers(spans)| == |EligibleBelow(linear, moe, |linear|)|
  {
    hide Layers;
    SpansPartition(|linear|, offsets, spans);
    assert Layers(spans) == EligibleBelow(linear, moe, |linear|);
  }

  /** The total length of the spans is the number of layers they cover. */
  method DirectSpanLayerCount(spans: map<nat, Span>) returns (total: nat)
    requires Disjoint(spans)
    ensures total == |Layers(spans)|
  {
    hide Layers, Members;
    assert Layers(map[]) == {} by {
      NoLayers();
    }
    total := 0;
    var todo := spans.Keys;
    ghost var seen: map<nat, Span> := map[];
    while todo != {}
      invariant todo <= spans.Keys && seen.Keys == spans.Keys - todo
      invariant forall s :: s in seen ==> seen[s] == spans[s]
      invariant total == |Layers(seen)|
      decreases |todo|
    {
      var s :| s in todo;
      ghost var own := Members(spans[s].layers);
      DistinctSize(spans[s].layers);
      LayersAdd(seen, s, spans[s]);
      OwnLayersAreNew(spans, seen, s);
      total := total + |spans[s].layers|;
      seen := seen[s := spans[s]];
      todo := todo - {s};
    }
    assert seen == spans;
  }

  /** What the environment may ask for; a list of offsets comes with the fields that are no
      numbers. */
  datatype Request = Default | Multi | First | All | Offsets(fields: seq<Field>)
  datatype Field = Number(v: int) | Malformed

  ghost predicate Wanted(spans: map<nat, Span>, r: Request, s: nat)
    requires s in spans
  {
    match r
    case Default => |spans[s].layers| > 1 || forall t :: t in spans ==> |spans[t].layers| <= 1
    case Multi => |spans[s].layers| > 1
    case First => spans[s].layerOffset == 0
    case All => true
    case Offsets(fields) =>
      (forall f :: f in fields ==> f.Number? && f.v >= 0) && Number(spans[s].layerOffset) in fields
  }

  ghost predicate Selection(spans: map<nat, Span>, r: Request, selected: map<nat, Span>) {
    forall s :: (s in selected <==> s in spans && Wanted(spans, r, s)) && (s in selected ==> selected[s] == spans[s])
  }

  /** The span of offset 0, of which there is at most one. */
  method SelectFirst(all: map<nat, Span>) returns (selected: map<nat, Span>)
    requires forall s, t :: s in all && t in all && all[s].layerOffset == all[t].layerOffset ==> s == t
    ensures Selection(all, First, selected)
  {
    var todo := all.Keys;
    while todo != {}
      invariant todo <= all.Keys
      invariant forall s :: s in all && s !in todo ==> all[s].layerOffset != 0
      decreases |todo|
    {
      var s :| s in todo;
      if all[s].layerOffset == 0 {
        return map[s := all[s]];
      }
      todo := todo - {s};
    }
    selected := map[];
  }

  /** The spans whose offset is listed, none at all when a field is not an offset. */
  method SelectListed(all: map<nat, Span>, fields: seq<Field>) returns (selected: map<nat, Span>)
    ensures Selection(all, Offsets(fields), selected)
  {
    var allowed: set<nat> := {};
    for i := 0 to |fields|
      invariant forall j :: 0 <= j < i ==> fields[j].Number? && fields[j].v >= 0 && fields[j].v in allowed
      invariant forall a :: a in allowed ==> Number(a) in fields
    {
      if fields[i].Malformed? || fields[i].v < 0 {
        assert fields[i] in fields;
        return map[];
      }
      assert fields[i] in fields;
      allowed := allowed + {fields[i].v};
    }
    selected := map s | s in all && all[s].layerOffset in allowed :: all[s];
  }

  /** What is selected, request by request. */
  lemma SelectionMeans(spans: map<nat, Span>, r: Request, selected: map<nat, Span>)
    requires Selection(spans, r, selected)
    ensures forall s :: s in selected ==> s in spans && selected[s] == spans[s]
    ensures r.All? ==> selected == spans
    ensures r.Multi? ==> forall s :: s in spans ==> (s in selected <==> |spans[s].layers| >= 2)
    ensures r.First? ==> forall s :: s in spans ==> (s in selected <==> spans[s].layerOffset == 0)
    ensures r.Default? && (exists t :: t in spans && |spans[t].layers| >= 2) ==>
      forall s :: s in spans ==> (s in selected <==> |spans[s].layers| >= 2)
    ensures r.Default? && (forall t :: t in spans ==> |spans[t].layers| < 2) ==> selected == spans
    ensures r.Offsets? && (exists f :: f in r.fields && (f.Malformed? || f.v < 0)) ==> selected == map[]
    ensures r.Offsets? && (forall f :: f in r.fields ==> f.Number? && f.v >= 0) ==>
      forall s :: s in spans ==> (s in selected <==> Number(spans[s].layerOffset) in r.fields)
  {
    if r.Default? && exists t :: t in spans && |spans[t].layers| >= 2 {
      var t :| t in spans && |spans[t].layers| >= 2;
      assert forall s :: s in selected ==> |spans[s].layers| > 1;
    }
  }

  method SelectSpans(spans: map<nat, Span>, r: Request) returns (selected: map<nat, Span>)
    requires forall s, t :: s in spans && t in spans && spans[s].layerOffset == spans[t].layerOffset ==> s == t
    ensures Selection(spans, r, selected)
  {
    match r {
      case Default =>
        selected := map s | s in spans && |spans[s].layers| > 1 :: spans[s];
        if selected == map[] {
          assert forall t :: t in spans ==> t !in selected;
          selected := spans;
        } else {
          var s :| s in selected;
          assert s in spans && |spans[s].layers| > 1;
        }
      case Multi =>
        selected := map s | s in spans && |spans[s].layers| > 1 :: spans[s];
      case First =>
        selected := SelectFirst(spans);
      case All =>
        selected := spans;
      case Offsets(fields) =>
        selected := SelectListed(spans, fields);
    }
  }

  method SelectDirectBlockSpans(linear: seq<bool>, moe: seq<bool>, offsets: map<nat, nat>, r: Request)
    returns (selected: map<nat, Span>, spans: map<nat, Span>)
    requires |linear| == |moe| && Ranks(linear, moe, offsets)
    ensures AllRuns(|linear|, offsets, spans) && Selection(spans, r, selected)
    // request by request
    ensures forall s :: s in selected ==> s in spans && selected[s] == spans[s]
    ensures r.All? ==> selected == spans
    ensures r.Multi? ==> forall s :: s in spans ==> (s in selected <==> |spans[s].layers| >= 2)
    ensures r.First? ==> forall s :: s in spans ==> (s in selected <==> spans[s].layerOffset == 0)
    ensures r.Default? && (exists t :: t in spans && |spans[t].layers| >= 2) ==>
      forall s :: s in spans ==> (s in selected <==> |spans[s].layers| >= 2)
    ensures r.Default? && (forall t :: t in spans ==> |spans[t].layers| < 2) ==> selected == spans
    ensures r.Offsets? && (exists f :: f in r.fields && (f.Malformed? || f.v < 0)) ==> selected == map[]
    ensures r.Offsets? && (forall f :: f in r.fields ==> f.Number? && f.v >= 0) ==>
      forall s :: s in spans ==> (s in selected <==> Number(spans[s].layerOffset) in r.fields)
  {
    hide AllRuns, Ranks, Selection;
    spans := BuildDirectSpans(|linear|, offsets);
    FirstSpan(linear, moe, offsets, spans);
    selected := SelectSpans(spans, r);
    SelectionMeans(spans, r, selected);
  }

  /** Five layers, of which the third has linear attention and the fourth experts. */
  method FiveLayers() returns (offsets: map<nat, nat>, spans: map<nat, Span>)
    ensures offsets == map[0 := 0, 1 := 1, 4 := 2]
    ensures spans == map[0 := Span(0, 0, [0, 1]), 4 := Span(4, 2, [4])]
  {
    hide Ranks, AllRuns;
    offsets := FullAttentionDenseOffsets([false, false, true, false, false], [false, false, false, true, false]);
    FiveOffsets(offsets);
    spans := BuildDirectSpans(5, offsets);
    FiveLayersSpans(spans);
  }

  lemma FiveOffsets(offsets: map<nat, nat>)
    requires Ranks([false, false, true, false, false], [false, false, false, true, false], offsets)
    ensures offsets == map[0 := 0, 1 := 1, 4 := 2]
  {
    hide Ranks;
    OffsetsCountUp([false, false, true, false, false], [false, false, false, true, false], offsets);
    assert offsets.Keys == {0, 1, 4};
    assert |offsets| == |offsets.Keys| == 3;
    assert offsets[0] < offsets[1] < offsets[4] < 3;
  }

  lemma FiveLayersSpans(spans: map<nat, Span>)
    requires AllRuns(5, map[0 := 0, 1 := 1, 4 := 2], spans)
    ensures spans == map[0 := Span(0, 0, [0, 1]), 4 := Span(4, 2, [4])]
  {
    var offsets := map[0 := 0, 1 := 1, 4 := 2];
    assert Joined(offsets, 0) && !Joined(offsets, 1) && !Joined(offsets, 3) && !Joined(offsets, 4);
    assert Starts(offsets, 0) && Starts(offsets, 4) && !Starts(offsets, 1);
    assert spans.Keys == {0, 4};
    assert MaximalRun(5, offsets, spans[0]) && MaximalRun(5, offsets, spans[4]);
    assert spans[0].layers == [0, 1] && spans[4].layers == [4];
  }
}
