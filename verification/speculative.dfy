/** Speculative decoding with greedy acceptance (draft_model_darwin.go): whatever the draft
    proposes, what comes out is the target's own greedy continuation. */
module Speculative {

  import opened Drafting
  import opened Options

  /** A float32 for the purpose of comparing: NaN compares false with everything. */
  datatype F32 = NaN | Num(v: real)

  predicate Greater(a: F32, b: F32) {
    a.Num? && b.Num? && a.v > b.v
  }

  // ---- argmax ----------------------------------------------------------------------------

  /** i is the first largest entry. A NaN in front hides all others, NaNs elsewhere are
      never chosen. */
  ghost predicate FirstLargest(xs: seq<F32>, i: nat) {
    i < |xs| && (xs[0].NaN? ==> i == 0)
    && (xs[0].Num? ==> xs[i].Num?)
    && (xs[0].Num? ==> forall j :: 0 <= j < |xs| ==> !Greater(xs[j], xs[i]))
    && (xs[0].Num? ==> forall j :: 0 <= j < i && xs[j].Num? ==> Greater(xs[i], xs[j]))
  }

  function Argmax(xs: seq<F32>): (i: nat)
    ensures xs == [] ==> i == 0
    ensures xs != [] ==> FirstLargest(xs, i)
  {
    if |xs| <= 1 then 0
    else
      var n := |xs| - 1;
      var best := Argmax(xs[..n]);
      assert forall j :: 0 <= j < n ==> xs[..n][j] == xs[j];
      if Greater(xs[n], xs[best]) then n else best
  }

  /** There is only one first largest entry. */
  lemma FirstLargestIsUnique(xs: seq<F32>, i: nat)
    requires FirstLargest(xs, i)
    ensures i == Argmax(xs)
  {
    var a := Argmax(xs);
    if xs[0].Num? {
      assert xs[a].Num? && xs[i].Num?;
    }
  }

  /** The entry that no number exceeds, and the first such; NaN entries do not count unless the
      first is one. */
  method ArgmaxFloat32(xs: seq<F32>) returns (bestIdx: nat)
    ensures bestIdx == Argmax(xs)
    ensures xs == [] || xs[0].NaN? ==> bestIdx == 0
    ensures xs != [] && xs[0].Num? ==> bestIdx < |xs| && xs[bestIdx].Num?
    ensures xs != [] && xs[0].Num? ==> forall j :: 0 <= j < |xs| && xs[j].Num? ==>
      xs[j].v <= xs[bestIdx].v && (j < bestIdx ==> xs[j].v < xs[bestIdx].v)
  {
    if |xs| == 0 {
      return 0;
    }
    bestIdx := 0;
    var best := xs[0];
    for i := 1 to |xs|
      invariant bestIdx == Argmax(xs[..i]) && best == xs[bestIdx]
    {
      assert xs[..i + 1][..i] == xs[..i];
      if Greater(xs[i], best) {
        best := xs[i];
        bestIdx := i;
      }
    }
    assert xs[..|xs|] == xs;
  }

  // ---- greedy decoding with and without drafts -----------------------------------------------

  type Target = seq<int> -> seq<F32>     // logits after a token history

  /** The n tokens plain greedy decoding appends to a history. */
  ghost function Continuation(target: Target, h: seq<int>, n: nat): (c: seq<int>)
    ensures |c| == n
  {
    if n == 0 then [] else
      var c := Continuation(target, h, n - 1);
      c + [Argmax(target(h + c))]
  }

  /** What a draft earns after a history: its tokens as long as they are the target's, then
      one token of the target. */
  ghost function Accepted(target: Target, h: seq<int>, draft: seq<int>): (a: seq<int>)
    ensures 1 <= |a| <= |draft| + 1
    decreases |draft|
  {
    var t := Argmax(target(h));
    if draft == [] || draft[0] != t then [t] else [t] + Accepted(target, h + [t], draft[1..])
  }

  /** Each token is the target's argmax after the history and the tokens before it. */
  lemma {:induction false} ContinuationAt(target: Target, h: seq<int>, n: nat, i: nat)
    requires i < n
    ensures Continuation(target, h, n)[i] == Argmax(target(h + Continuation(target, h, n)[..i]))
    decreases n
  {
    var c := Continuation(target, h, n - 1);
    if i < n - 1 {
      ContinuationAt(target, h, n - 1, i);
      assert Continuation(target, h, n)[..i] == c[..i];
    } else {
      assert Continuation(target, h, n)[..i] == c;
    }
  }

  lemma Regroup(a: seq<int>, b: seq<int>, c: seq<int>)
    ensures a + (b + c) == (a + b) + c
  {
  }

  /** Greedy decoding may be cut anywhere and taken up again. */
  lemma {:induction false} ContinuationSplits(target: Target, h: seq<int>, m: nat, n: nat)
    ensures Continuation(target, h, m + n)
      == Continuation(target, h, m) + Continuation(target, h + Continuation(target, h, m), n)
    decreases n
  {
    var c := Continuation(target, h, m);
    if n > 0 {
      ContinuationSplits(target, h, m, n - 1);
      var d := Continuation(target, h + c, n - 1);
      assert Continuation(target, h, m + n) == (c + d) + [Argmax(target(h + (c + d)))];
      Regroup(h, c, d);
      Regroup(c, d, [Argmax(target(h + (c + d)))]);
    } else {
      assert c + [] == c;
    }
  }

  /** No draft changes what is decoded, only how much of it one step delivers. */
  lemma {:induction false} AcceptedIsGreedy(target: Target, h: seq<int>, draft: seq<int>)
    ensures Accepted(target, h, draft) == Continuation(target, h, |Accepted(target, h, draft)|)
    decreases |draft|
  {
    var t := Argmax(target(h));
    assert Continuation(target, h, 0) == [] && h + [] == h;
    assert Continuation(target, h, 1) == [t];
    if draft != [] && draft[0] == t {
      AcceptedIsGreedy(target, h + [t], draft[1..]);
      ContinuationSplits(target, h, 1, |Accepted(target, h + [t], draft[1..])|);
    }
  }

  /** A step delivers all that the draft allows: one more than the draft has in common with
      the greedy continuation. */
  lemma {:induction false} AcceptedIsLongest(target: Target, h: seq<int>, draft: seq<int>)
    ensures var n := |Accepted(target, h, draft)| - 1;
      draft[..n] == Continuation(target, h, n)
      && (n < |draft| ==> draft[..n + 1] != Continuation(target, h, n + 1))
  {
    var a := Accepted(target, h, draft);
    var n := |a| - 1;
    AcceptedIsGreedy(target, h, draft);
    AcceptedFollows(target, h, draft);
    assert Continuation(target, h, n) == a[..n];
    if n < |draft| {
      assert draft[..n + 1][n] != a[n];
    }
  }

  /** All but the last accepted token are the draft's, the last is only when all are used up. */
  lemma {:induction false} AcceptedFollows(target: Target, h: seq<int>, draft: seq<int>)
    ensures var a := Accepted(target, h, draft);
      a[..|a| - 1] == draft[..|a| - 1] && (|a| <= |draft| ==> a[|a| - 1] != draft[|a| - 1])
    decreases |draft|
  {
    var t := Argmax(target(h));
    if draft != [] && draft[0] == t {
      AcceptedFollows(target, h + [t], draft[1..]);
      var b := Accepted(target, h + [t], draft[1..]);
      var a := Accepted(target, h, draft);
      assert a == [t] + b;
      assert a[..|a| - 1] == [t] + b[..|b| - 1];
      assert draft == [draft[0]] + draft[1..];
      assert draft[..|a| - 1] == [t] + draft[1..][..|b| - 1];
    }
  }

  /** What a run of steps emits, one draft to a step. */
  ghost function Decoded(target: Target, h: seq<int>, drafts: seq<seq<int>>): (out: seq<int>)
    ensures |out| >= |drafts|
    decreases |drafts|
  {
    if drafts == [] then [] else
      var a := Accepted(target, h, drafts[0]);
      a + Decoded(target, h + a, drafts[1..])
  }

  /** A run of speculative steps, with any drafts whatever, is plain greedy decoding. */
  lemma {:induction false} SpeculationIsLossless(target: Target, h: seq<int>, drafts: seq<seq<int>>)
    ensures Decoded(target, h, drafts) == Continuation(target, h, |Decoded(target, h, drafts)|)
    decreases |drafts|
  {
    hide Accepted, Continuation, Argmax;
    if drafts != [] {
      var a := Accepted(target, h, drafts[0]);
      AcceptedIsGreedy(target, h, drafts[0]);
      SpeculationIsLossless(target, h + a, drafts[1..]);
      ContinuationSplits(target, h, |a|, |Decoded(target, h + a, drafts[1..])|);
    }
  }

  // ---- the merge ---------------------------------------------------------------------------

  /** The target agrees with the first n draft tokens, and says something about each. */
  ghost predicate Agrees(draft: seq<int>, rows: seq<seq<F32>>, n: nat)
    requires n <= |draft| && n <= |rows|
  {
    forall i :: 0 <= i < n ==> rows[i] != [] && draft[i] == Argmax(rows[i])
  }

  ghost predicate MergeFails(draft: seq<int>, rows: seq<seq<F32>>) {
    draft == [] || |rows| < |draft| + 1
    || exists j :: 0 <= j <= |draft| && Agrees(draft, rows, j) && rows[j] == []
  }

  /** The rows are the target's logits after h, after h and the first draft token, ... */
  ghost predicate RowsOf(target: Target, h: seq<int>, draft: seq<int>, rows: seq<seq<F32>>) {
    |rows| >= |draft| + 1 && forall i :: 0 <= i <= |draft| ==> rows[i] == target(h + draft[..i])
  }

  lemma {:induction false} AcceptedFromRows(target: Target, h: seq<int>, draft: seq<int>, rows: seq<seq<F32>>, n: nat)
    requires RowsOf(target, h, draft, rows) && n <= |draft| && Agrees(draft, rows, n)
    requires n < |draft| ==> draft[n] != Argmax(rows[n])
    ensures Accepted(target, h, draft) == draft[..n] + [Argmax(rows[n])]
    decreases n
  {
    hide Argmax;
    assert draft[..0] == [] && h + [] == h;
    assert rows[0] == target(h);
    if n > 0 {
      var t := draft[0];
      forall i | 0 <= i <= |draft| - 1
        ensures rows[1..][i] == target((h + [t]) + draft[1..][..i])
      {
        assert (h + [t]) + draft[1..][..i] == h + draft[..i + 1];
      }
      AcceptedFromRows(target, h + [t], draft[1..], rows[1..], n - 1);
      assert draft[..n] == [t] + draft[1..][..n - 1];
    }
  }

  method MergeDraftWithTargetGreedy(draft: seq<int>, rows: seq<seq<F32>>) returns (r: Option<seq<int>>)
    ensures r.None? <==> MergeFails(draft, rows)
    ensures r.Some? ==> var n := |r.value| - 1;
      0 <= n <= |draft| && Agrees(draft, rows, n) && r.value == draft[..n] + [Argmax(rows[n])]
      && (n < |draft| ==> draft[n] != Argmax(rows[n]))
    ensures r.None? && draft != [] && |rows| > |draft| ==> exists j :: 0 <= j <= |draft| && rows[j] == []
    ensures draft == [] || |rows| <= |draft| ==> r.None?
    // the target's choices one after the other, up to the first that the draft does not have
    ensures r.Some? ==> 0 < |r.value| <= |draft| + 1 <= |rows|
    ensures r.Some? ==> forall j :: 0 <= j < |r.value| ==> rows[j] != [] && r.value[j] == Argmax(rows[j])
    ensures r.Some? ==> forall j :: 0 <= j < |r.value| && j < |draft| ==>
      (r.value[j] == draft[j] <==> j < |r.value| - 1)
    ensures draft != [] && |rows| > |draft| && (forall j :: 0 <= j <= |draft| ==> rows[j] != []) ==> r.Some?
  {
    var k := |draft|;
    if k == 0 || |rows| < k + 1 {
      return None;
    }
    var accepted := [];
    for i := 0 to k
      invariant accepted == draft[..i] && Agrees(draft, rows, i)
    {
      if |rows[i]| == 0 {
        return None;
      }
      var targetTokenID := ArgmaxFloat32(rows[i]);
      if targetTokenID != draft[i] {
        accepted := accepted + [targetTokenID];
        OnlyFirstDisagreement(draft, rows, i);
        return Some(accepted);
      }
      accepted := accepted + [draft[i]];
    }
    if |rows[k]| == 0 {
      return None;
    }
    var last := ArgmaxFloat32(rows[k]);
    assert draft[..k] == draft;
    return Some(accepted + [last]);
  }

  lemma OnlyFirstDisagreement(draft: seq<int>, rows: seq<seq<F32>>, n: nat)
    requires n < |draft| < |rows| && Agrees(draft, rows, n) && rows[n] != [] && draft[n] != Argmax(rows[n])
    ensures !MergeFails(draft, rows)
  {
    forall j | 0 <= j <= |draft| && rows[j] == []
      ensures !Agrees(draft, rows, j)
    {
      assert j != n;
    }
  }

  // ---- the decoder -------------------------------------------------------------------------

  /** `SpeculativeDecoder` over the drafting model of module Drafting. The target answers a
      batch in the context of the tokens before it. */
  class SpeculativeDecoder {
    const draft: DraftModel
    const vocabSize: nat
    const k: int
    const verify: (seq<int>, seq<int>) -> Option<seq<seq<F32>>>

    constructor (draft: DraftModel, vocabSize: nat, k: int, verify: (seq<int>, seq<int>) -> Option<seq<seq<F32>>>)
      ensures this.draft == draft && this.vocabSize == vocabSize && this.k == k && this.verify == verify
    {
      this.draft, this.vocabSize, this.k, this.verify := draft, vocabSize, k, verify;
    }

    function Kind(): Backend {
      if draft.stateful then Stateful else Positional
    }

    /** A target that answers a batch with its logits after each token of the batch. */
    ghost predicate Verifies(target: Target) {
      forall ctx: seq<int>, ids: seq<int> | verify(ctx, ids).Some? && ids != [] ::
        RowsOf(target, ctx + ids[..1], ids[1..], verify(ctx, ids).value)
    }

    /** The row after the first i + 1 tokens of a batch. */
    lemma VerifiedRow(target: Target, ctx: seq<int>, ids: seq<int>, i: nat)
      requires Verifies(target) && verify(ctx, ids).Some? && i < |ids|
      ensures |verify(ctx, ids).value| >= |ids| && verify(ctx, ids).value[i] == target(ctx + ids[..i + 1])
    {
      var rows := verify(ctx, ids).value;
      assert RowsOf(target, ctx + ids[..1], ids[1..], rows);
      assert (ctx + ids[..1]) + ids[1..][..i] == ctx + ids[..i + 1];
    }

    /** Nothing in the way of a step: a draft model that never runs full, picks and target
        tokens within the vocabulary, a target that answers. */
    ghost predicate Healthy(target: Target) {
      k > 0 && draft.stateful && (forall l :: 0 <= draft.net.pick(l) < vocabSize)
      && (forall ctx: seq<int>, ids: seq<int> :: verify(ctx, ids).Some?)
      && (forall h: seq<int> :: target(h) != [] && Argmax(target(h)) < vocabSize)
    }

    /** Evaluates one token and advances past it, whatever state the draft model is in. If it
        is a replay of some tokens, it is one of these and the new token afterwards. */
    method FeedOne(token: int, ghost fed: seq<int>) returns (nextID: Option<int>)
      modifies draft
      ensures nextID.Some? ==> 0 <= nextID.value < vocabSize
      ensures draft.stateful && (forall l :: 0 <= draft.net.pick(l) < vocabSize) ==> nextID.Some?
      ensures nextID.Some? && old(draft.At(fed)) ==>
        draft.At(fed + [token]) && nextID.value == draft.net.pick(draft.net.Out(Kind(), fed + [token]))
      ensures nextID.Some? && old(draft.At(fed)) && !draft.stateful ==> |fed| < draft.maxSeqLen
    {
      ghost var h := fed + [token];
      assert h[..|h| - 1] == fed;
      var logits := draft.EvalToken(token);
      if logits.None? {
        return None;
      }
      var next := draft.net.pick(logits.value);
      if next < 0 || next >= vocabSize {
        return None;
      }
      draft.AdvanceDecodePosition();
      return Some(next);
    }

    /** k tokens of the draft model after the input token. For a model that had been fed some
        tokens they are its greedy continuation of these and the input, and it has then been
        fed all of them but the last. */
    method GenerateDraft(input: int, ghost fed: seq<int>) returns (r: Option<seq<int>>)
      requires k > 0
      modifies draft
      ensures r.Some? ==> |r.value| == k && forall i :: 0 <= i < k ==> 0 <= r.value[i] < vocabSize
      ensures draft.stateful && (forall l :: 0 <= draft.net.pick(l) < vocabSize) ==> r.Some?
      ensures r.Some? && old(draft.At(fed)) ==>
        draft.At(fed + [input] + r.value[..k - 1]) && draft.net.Greedy(Kind(), fed + [input], r.value)
      ensures old(draft.At(fed)) && !draft.stateful && |fed| + k > draft.maxSeqLen ==> r.None?
    {
      hide Net.Mil, Net.Rows, Net.CacheOf, Net.Out, DraftModel.At, Net.Greedy;
      var curr := input;
      var tokenIDs: seq<int> := [];
      ghost var now, known := fed, draft.At(fed);
      draft.net.GreedyStart(Kind(), fed + [input]);
      for step := 0 to k
        invariant |tokenIDs| == step && |now| == |fed| + step
        invariant now + [curr] == fed + [input] + tokenIDs
        invariant known ==> draft.At(now) && draft.net.Greedy(Kind(), fed + [input], tokenIDs)
        invariant forall i :: 0 <= i < step ==> 0 <= tokenIDs[i] < vocabSize
        invariant known && !draft.stateful && step > 0 ==> |now| <= draft.maxSeqLen
      {
        var nextID := FeedOne(curr, now);
        if nextID.None? {
          return None;
        }
        if known {
          draft.net.GreedyStep(Kind(), fed + [input], tokenIDs, nextID.value);
        }
        now := now + [curr];
        curr := nextID.value;
        tokenIDs := tokenIDs + [curr];
      }
      assert now == (fed + [input] + tokenIDs)[..|now|] == fed + [input] + tokenIDs[..k - 1];
      return Some(tokenIDs);
    }

    /** The output is what k greedy tokens of a draft model that was fed `fed` earn after h. */
    ghost predicate Explains(proposal: seq<int>, fed: seq<int>, h: seq<int>, target: Target, out: seq<int>) {
      |proposal| == k && draft.net.Greedy(Kind(), fed, proposal) && out == Accepted(target, h, proposal)
    }

    /** The merge, given rows that are the target's. */
    method MergeRows(p: seq<int>, rows: seq<seq<F32>>, ghost target: Target, ghost h: seq<int>)
      returns (r: Option<seq<int>>)
      requires p != [] && RowsOf(target, h, p, rows)
      ensures (forall g: seq<int> :: target(g) != []) ==> r.Some?
      ensures r.Some? ==>
        1 <= |r.value| <= |p| + 1 && r.value == Accepted(target, h, p) == Continuation(target, h, |r.value|)
        && r.value[..|r.value| - 1] == p[..|r.value| - 1]
    {
      hide RowsOf, Agrees, Accepted, Continuation, Argmax, MergeFails;
      r := MergeDraftWithTargetGreedy(p, rows);
      if forall g: seq<int> :: target(g) != [] {
        MergeSucceeds(target, h, p, rows);
      }
      if r.Some? {
        MergeEarns(target, h, p, rows, r.value);
      }
    }

    /** One step in a context. Whatever state the draft model is in, between 1 and k + 1 tokens
        come out and they are the target's own. If the draft model had been fed the context,
        it stands where the next step would need it exactly when k tokens came out, that is
        when only its last token was turned down. */
    method Step(context: seq<int>, input: int, ghost fed: seq<int>, ghost target: Target) returns (r: Option<seq<int>>)
      requires Verifies(target)
      modifies draft
      ensures k <= 0 || input < 0 || input >= vocabSize ==> r.None? && unchanged(draft)
      ensures r.Some? ==> 1 <= |r.value| <= k + 1
      ensures r.Some? ==> r.value == Continuation(target, context + [input], |r.value|)
      ensures Healthy(target) && 0 <= input < vocabSize ==> r.Some?
      ensures r.Some? && old(draft.At(fed)) ==>
        exists proposal: seq<int> :: Explains(proposal, fed + [input], context + [input], target, r.value)
      ensures r.Some? && old(draft.At(fed)) && fed == context ==>
        (draft.At(context + [input] + r.value[..|r.value| - 1]) <==> |r.value| == k)
    {
      hide DraftModel.At, RowsOf, Agrees, Accepted, Continuation, Argmax, Net.Greedy, MergeFails;
      if k <= 0 || input < 0 || input >= vocabSize {
        return None;
      }
      var proposal := GenerateDraft(input, fed);
      if proposal.None? {
        return None;
      }
      var ids := [input] + proposal.value;
      var rows := verify(context, ids);
      if rows.None? {
        return None;
      }
      var p := proposal.value;
      ghost var h := context + [input];
      assert ids[..1] == [input] && ids[1..] == p;
      r := MergeRows(p, rows.value, target, h);
      if r.Some? {
        if old(draft.At(fed)) {
          assert Explains(p, fed + [input], h, target, r.value);
          if fed == context {
            Standing(h, p, r.value);
          }
        }
      }
    }

    /** The draft model stands at the end of the output only if it was fed as many tokens. */
    lemma Standing(h: seq<int>, proposal: seq<int>, out: seq<int>)
      requires k > 0 && |proposal| == k && out != [] && draft.At(h + proposal[..k - 1])
      requires |out| == k ==> out[..k - 1] == proposal[..k - 1]
      ensures draft.At(h + out[..|out| - 1]) <==> |out| == k
    {
    }

    /** A run of the decoder's own steps, each from the last token of the one before, with a
        draft model that nobody puts right in between: it is plain greedy decoding, cut off
        at the first step that fails. */
    method Decode(context: seq<int>, input: int, steps: nat, ghost target: Target) returns (out: seq<int>, done: nat)
      requires Verifies(target)
      modifies draft
      ensures out == Continuation(target, context + [input], |out|)
      ensures done <= steps && done <= |out| <= done * (if k < 0 then 0 else k + 1)
      ensures Healthy(target) && 0 <= input < vocabSize ==> done == steps
    {
      hide Continuation, Verifies;
      out, done := [], 0;
      ghost var h := context + [input];
      NothingDecoded(target, h);
      while done < steps
        invariant done <= steps && done <= |out| <= done * (if k < 0 then 0 else k + 1)
        invariant out == Continuation(target, h, |out|)
        invariant Healthy(target) && 0 <= input < vocabSize ==> 0 <= ([input] + out)[|out|] < vocabSize
        decreases steps - done
      {
        var tokens := [input] + out;
        var n := |tokens| - 1;
        assert context + tokens[..n] + [tokens[n]] == h + out;
        var r := Step(context + tokens[..n], tokens[n], [], target);
        if r.None? {
          return;
        }
        ContinuationSplits(target, h, |out|, |r.value|);
        LastIsArgmax(target, h, out + r.value);
        out := out + r.value;
        done := done + 1;
      }
    }
  }

  lemma LastIsArgmax(target: Target, h: seq<int>, out: seq<int>)
    requires out != [] && out == Continuation(target, h, |out|)
    ensures out[|out| - 1] == Argmax(target(h + out[..|out| - 1]))
  {
  }

  lemma MergeSucceeds(target: Target, h: seq<int>, draft: seq<int>, rows: seq<seq<F32>>)
    requires draft != [] && RowsOf(target, h, draft, rows) && forall g: seq<int> :: target(g) != []
    ensures !MergeFails(draft, rows)
  {
  }

  lemma NothingDecoded(target: Target, h: seq<int>)
    ensures Continuation(target, h, 0) == []
  {
  }

  lemma MergeEarns(target: Target, h: seq<int>, draft: seq<int>, rows: seq<seq<F32>>, out: seq<int>)
    requires RowsOf(target, h, draft, rows) && 1 <= |out| <= |draft| + 1
    requires Agrees(draft, rows, |out| - 1) && out == draft[..|out| - 1] + [Argmax(rows[|out| - 1])]
    requires |out| <= |draft| ==> draft[|out| - 1] != Argmax(rows[|out| - 1])
    ensures out == Accepted(target, h, draft) == Continuation(target, h, |out|)
    ensures out[..|out| - 1] == draft[..|out| - 1]
  {
    AcceptedFromRows(target, h, draft, rows, |out| - 1);
    AcceptedIsGreedy(target, h, draft);
  }

  lemma BothAccepted(target: Target, h: seq<int>, proposal: seq<int>)
    requires (forall g: seq<int> :: Argmax(target(g)) == 0) && |proposal| == 1 && proposal[0] == 0
    ensures Accepted(target, h, proposal) == [0, 0]
  {
    assert Argmax(target(h)) == 0;
    assert Accepted(target, h + [0], proposal[1..]) == [Argmax(target(h + [0]))];
  }

  /** A decoder for a vocabulary of one token, with k = 1: both tokens of a step are accepted, and the
      draft model has not been fed the first of them. */
  method StepLeavesTheDraftBehind() returns (d: SpeculativeDecoder, r: Option<seq<int>>)
    ensures r == Some([0, 0]) && !d.draft.At([0] + r.value[..1])
  {
    hide DraftModel.At, Accepted, Continuation, Argmax, Net.Out;
    var net := Net(0, (s, t) => 0, (s, t) => 0, (r, t) => K.Entry([], []), (r, t) => 0, 0, (c, t) => 0, (c, t) => 0,
      (c, k) => 0, l => 0);
    var draft := new DraftModel(net, true, 0);
    ghost var target: Target := h => [Num(0.0)];
    d := new SpeculativeDecoder(draft, 1, 1, (ctx, ids) => Some(seq(|ids|, _ => [Num(0.0)])));
    assert d.Verifies(target) && d.Healthy(target);
    hide SpeculativeDecoder.Verifies, SpeculativeDecoder.Healthy;
    r := d.Step([], 0, [], target);
    ghost var proposal :| d.Explains(proposal, [] + [0], [] + [0], target, r.value);
    assert proposal[0] == 0;
    BothAccepted(target, [] + [0], proposal);
    assert [] + [0] + r.value[..1] == [0] + r.value[..1];
  }
}
