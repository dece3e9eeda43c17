/**
 The argument helpers `ReadArgs` and `ReadValueArgs`, in their slice form
 (`start`, `len`) and their all-children form.

 The child expressions themselves and the evaluator are not part of this
 model: `children[i]` is the outcome that evaluating child `i` would have,
 `Some(result)` or `None` for a failed evaluation. The output vector is an
 `Option<seq<T>>`, `None` standing for a null pointer. Every read reports the
 indices it evaluated, in evaluation order.
 */
module ArgHelpers {
  import opened Wrappers
  import opened EdifyState

  /** What a helper returns, what its output vector holds afterwards, and which children it evaluated. */
  datatype Read<T> = Read(ok: bool, out: Option<seq<T>>, evaluated: seq<nat>)

  /** The indices lo, lo+1, ..., hi-1 in increasing order. */
  function Span(lo: nat, hi: nat): (r: seq<nat>)
    requires lo <= hi
    ensures |r| == hi - lo
    ensures forall k :: 0 <= k < |r| ==> r[k] == lo + k
    decreases hi - lo
  {
    if lo == hi then [] else [lo] + Span(lo + 1, hi)
  }

  /** Every child in [lo, hi) evaluates successfully. */
  ghost predicate AllSucceed<T>(children: seq<Option<T>>, lo: nat, hi: nat)
    requires lo <= hi <= |children|
  {
    forall j :: lo <= j < hi ==> children[j].Some?
  }

  /** `f` is the first child at or after `lo` whose evaluation fails. */
  ghost predicate FirstFailure<T>(children: seq<Option<T>>, lo: nat, f: nat)
  {
    && lo <= f < |children|
    && children[f].None?
    && forall j :: lo <= j < f ==> children[j].Some?
  }

  /** `out` is `prior` followed by the results of children lo..hi-1, in index order. */
  ghost predicate Appended<T>(children: seq<Option<T>>, lo: nat, hi: nat, prior: seq<T>, out: seq<T>)
    requires lo <= hi <= |children|
  {
    && |out| == |prior| + (hi - lo)
    && out[..|prior|] == prior
    && forall j :: lo <= j < hi ==> children[j] == Some(out[|prior| + (j - lo)])
  }

  /**
   The contract of evaluating children lo..hi-1 into an output that holds
   `prior`: success exactly when every one of them succeeds; then the output
   is `prior` followed by their results and they were all evaluated in
   order. Otherwise the output is cleared and the evaluation stopped at the
   first failing child.
   */
  ghost predicate Evaluates<T>(children: seq<Option<T>>, lo: nat, hi: nat, prior: seq<T>, r: Read<T>)
    requires lo <= hi <= |children|
  {
    && r.out.Some?
    && (r.ok <==> AllSucceed(children, lo, hi))
    && (r.ok ==> Appended(children, lo, hi, prior, r.out.value) && r.evaluated == Span(lo, hi))
    && (!r.ok ==>
          && r.out.value == []
          && |r.evaluated| > 0
          && var f := r.evaluated[|r.evaluated| - 1];
             f < hi && FirstFailure(children, lo, f) && r.evaluated == Span(lo, f + 1))
  }

  /** The loop of both helpers: evaluate children i..end-1 in order, appending to `acc`. */
  function Collect<T>(children: seq<Option<T>>, i: nat, end: nat, acc: seq<T>): (r: Read<T>)
    requires i <= end <= |children|
    ensures r.out.Some?
    decreases end - i
  {
    if i == end then Read(true, Some(acc), [])
    else match children[i]
      case None => Read(false, Some([]), [i])
      case Some(v) =>
        var rest := Collect(children, i + 1, end, acc + [v]);
        Read(rest.ok, rest.out, [i] + rest.evaluated)
  }

  /** The loop meets `Evaluates`. */
  lemma {:induction false} CollectEvaluates<T>(children: seq<Option<T>>, i: nat, end: nat, acc: seq<T>)
    requires i <= end <= |children|
    ensures Evaluates(children, i, end, acc, Collect(children, i, end, acc))
    decreases end - i
  {
    if i < end && children[i].Some? {
      var v := children[i].value;
      CollectEvaluates(children, i + 1, end, acc + [v]);
      EvaluatesStep(children, i, end, acc, Collect(children, i + 1, end, acc + [v]));
    }
  }

  /** One step of the loop: a successful child `i` in front of a read of i+1..end-1. */
  lemma EvaluatesStep<T>(children: seq<Option<T>>, i: nat, end: nat, acc: seq<T>, rest: Read<T>)
    requires i < end <= |children| && children[i].Some?
    requires Evaluates(children, i + 1, end, acc + [children[i].value], rest)
    ensures Evaluates(children, i, end, acc, Read(rest.ok, rest.out, [i] + rest.evaluated))
  {
    var v := children[i].value;
    var r := Read(rest.ok, rest.out, [i] + rest.evaluated);
    assert AllSucceed(children, i, end) <==> AllSucceed(children, i + 1, end);
    if rest.ok {
      var out := rest.out.value;
      assert out[..|acc|] == (out[..|acc| + 1])[..|acc|];
      assert out[..|acc|] == acc;
      assert r.evaluated == Span(i, end);
    } else {
      var f := rest.evaluated[|rest.evaluated| - 1];
      assert r.evaluated[|r.evaluated| - 1] == f;
      assert r.evaluated == Span(i, f + 1);
    }
  }

  /**
   `ReadArgs` (slice form): fails without evaluating anything and without
   touching the output when the output is null or the slice runs past the
   last child; otherwise evaluates the slice as `Evaluates` describes.
   */
  function ReadArgs(children: seq<Option<string>>, args: Option<seq<string>>, start: nat, len: nat): (r: Read<string>)
    ensures args.None? || start + len > |children| ==> !r.ok && r.out == args && r.evaluated == []
    ensures args.Some? && start + len <= |children| ==> Evaluates(children, start, start + len, args.value, r)
  {
    if args.None? then Read(false, args, [])
    else if start + len > |children| then Read(false, args, [])
    else
      CollectEvaluates(children, start, start + len, args.value);
      Collect(children, start, start + len, args.value)
  }

  /** `ReadArgs` (all-children form): the slice form over every child. */
  function ReadAllArgs(children: seq<Option<string>>, args: Option<seq<string>>): (r: Read<string>)
    ensures args.None? ==> !r.ok && r.out == None && r.evaluated == []
    ensures args.Some? ==> Evaluates(children, 0, |children|, args.value, r)
  {
    ReadArgs(children, args, 0, |children|)
  }

  /**
   `ReadValueArgs` (slice form): as `ReadArgs` over full Values, except that
   an empty slice is also refused up front.
   */
  function ReadValueArgs(children: seq<Option<Value>>, args: Option<seq<Value>>, start: nat, len: nat): (r: Read<Value>)
    ensures args.None? || len == 0 || start + len > |children| ==> !r.ok && r.out == args && r.evaluated == []
    ensures args.Some? && 0 < len && start + len <= |children| ==> Evaluates(children, start, start + len, args.value, r)
  {
    if args.None? then Read(false, args, [])
    else if len == 0 || start + len > |children| then Read(false, args, [])
    else
      CollectEvaluates(children, start, start + len, args.value);
      Collect(children, start, start + len, args.value)
  }

  /** `ReadValueArgs` (all-children form): the slice form over every child, so no children is a failure. */
  function ReadAllValueArgs(children: seq<Option<Value>>, args: Option<seq<Value>>): (r: Read<Value>)
    ensures args.None? || |children| == 0 ==> !r.ok && r.out == args && r.evaluated == []
    ensures args.Some? && 0 < |children| ==> Evaluates(children, 0, |children|, args.value, r)
  {
    ReadValueArgs(children, args, 0, |children|)
  }

  /** A first failure, when there is one, is unique. */
  lemma FirstFailureUnique<T>(children: seq<Option<T>>, lo: nat, f: nat, g: nat)
    requires FirstFailure(children, lo, f) && FirstFailure(children, lo, g)
    ensures f == g
  {
  }

  /** `Evaluates` pins the result down completely: two results that meet it are equal. */
  lemma EvaluatesDeterminesResult<T>(children: seq<Option<T>>, lo: nat, hi: nat, prior: seq<T>, r1: Read<T>, r2: Read<T>)
    requires lo <= hi <= |children|
    requires Evaluates(children, lo, hi, prior, r1) && Evaluates(children, lo, hi, prior, r2)
    ensures r1 == r2
  {
    if r1.ok {
      var o1, o2 := r1.out.value, r2.out.value;
      assert |o1| == |o2|;
      forall k | 0 <= k < |o1| ensures o1[k] == o2[k] {
        if k < |prior| {
          assert o1[k] == o1[..|prior|][k] && o2[k] == o2[..|prior|][k];
        } else {
          var j := lo + (k - |prior|);
          assert children[j] == Some(o1[|prior| + (j - lo)]) == Some(o2[|prior| + (j - lo)]);
        }
      }
      assert o1 == o2;
    } else {
      var f1 := r1.evaluated[|r1.evaluated| - 1];
      var f2 := r2.evaluated[|r2.evaluated| - 1];
      FirstFailureUnique(children, lo, f1, f2);
    }
  }

  /**
   A read depends only on the outcomes of the children it evaluated: any
   other children with the same outcomes at those indices give the same read.
   In particular nothing after the first failing child is ever looked at.
   */
  lemma ReadArgsOnlySeesEvaluated(children: seq<Option<string>>, other: seq<Option<string>>,
                                  args: Option<seq<string>>, start: nat, len: nat)
    requires |other| == |children|
    requires forall k :: 0 <= k < |ReadArgs(children, args, start, len).evaluated| ==>
               var j := ReadArgs(children, args, start, len).evaluated[k];
               j < |children| && other[j] == children[j]
    ensures ReadArgs(other, args, start, len) == ReadArgs(children, args, start, len)
  {
    var r := ReadArgs(children, args, start, len);
    if args.Some? && start + len <= |children| {
      var hi := start + len;
      forall j | start <= j < (if r.ok then hi else r.evaluated[|r.evaluated| - 1] + 1)
        ensures other[j] == children[j]
      {
        assert r.evaluated[j - start] == j;
      }
      EvaluatesDeterminesResult(other, start, hi, args.value, r, ReadArgs(other, args, start, len));
    }
  }

  /** Reading a slice in two consecutive parts, the second after the first succeeded. */
  function ReadInTwo<T>(children: seq<Option<T>>, i: nat, mid: nat, end: nat, acc: seq<T>): Read<T>
    requires i <= mid <= end <= |children|
  {
    var first := Collect(children, i, mid, acc);
    if !first.ok then first
    else
      var second := Collect(children, mid, end, first.out.value);
      Read(second.ok, second.out, first.evaluated + second.evaluated)
  }

  lemma {:induction false} CollectSplits<T>(children: seq<Option<T>>, i: nat, mid: nat, end: nat, acc: seq<T>)
    requires i <= mid <= end <= |children|
    ensures Collect(children, i, end, acc) == ReadInTwo(children, i, mid, end, acc)
    decreases mid - i
  {
    if i == mid {
      var whole := Collect(children, i, end, acc);
      assert [] + whole.evaluated == whole.evaluated;
    } else if children[i].Some? {
      var v := children[i].value;
      CollectSplits(children, i + 1, mid, end, acc + [v]);
      var first := Collect(children, i + 1, mid, acc + [v]);
      assert Collect(children, i, mid, acc) == Read(first.ok, first.out, [i] + first.evaluated);
      if first.ok {
        var second := Collect(children, mid, end, first.out.value);
        assert Collect(children, i + 1, end, acc + [v]) == Read(second.ok, second.out, first.evaluated + second.evaluated);
        assert [i] + (first.evaluated + second.evaluated) == ([i] + first.evaluated) + second.evaluated;
      }
    }
  }

  /**
   Reading `a + b` children from `start` is reading the first `a`, then, only
   if that succeeded, the next `b` onto the same output: the evaluation order
   is strictly left to right and a failure stops it.
   */
  lemma ReadArgsSplits(children: seq<Option<string>>, prior: seq<string>, start: nat, a: nat, b: nat)
    requires start + a + b <= |children|
    ensures ReadArgs(children, Some(prior), start, a + b)
         == var first := ReadArgs(children, Some(prior), start, a);
            if !first.ok then first
            else
              var second := ReadArgs(children, first.out, start + a, b);
              Read(second.ok, second.out, first.evaluated + second.evaluated)
  {
    CollectSplits(children, start, start + a, start + a + b, prior);
    var first := ReadArgs(children, Some(prior), start, a);
    assert first == Collect(children, start, start + a, prior);
    if first.ok {
      assert ReadArgs(children, first.out, start + a, b) == Collect(children, start + a, start + a + b, first.out.value);
    }
  }

  /**
   The earlier contents of the output vector only ever sit in front of the
   new results: they decide neither success nor which children are evaluated.
   */
  lemma ReadArgsKeepsPrior(children: seq<Option<string>>, prior: seq<string>, start: nat, len: nat)
    requires start + len <= |children|
    ensures var alone := ReadArgs(children, Some([]), start, len);
            var r := ReadArgs(children, Some(prior), start, len);
            && r.ok == alone.ok
            && r.evaluated == alone.evaluated
            && r.out.value == (if r.ok then prior + alone.out.value else [])
  {
    var alone := ReadArgs(children, Some([]), start, len);
    var r := ReadArgs(children, Some(prior), start, len);
    var expected := Read(alone.ok, Some(if alone.ok then prior + alone.out.value else []), alone.evaluated);
    if alone.ok {
      var o := prior + alone.out.value;
      assert o[..|prior|] == prior;
      forall j | start <= j < start + len ensures children[j] == Some(o[|prior| + (j - start)]) {
        assert children[j] == Some(alone.out.value[j - start]);
      }
    }
    EvaluatesDeterminesResult(children, start, start + len, prior, r, expected);
  }

  /** Children of two reads fail at the same indices. */
  ghost predicate SameFailures<T, U>(c: seq<Option<T>>, d: seq<Option<U>>)
  {
    |c| == |d| && forall j :: 0 <= j < |c| ==> (c[j].Some? <==> d[j].Some?)
  }

  lemma {:induction false} CollectFollowsFailures<T, U>(c: seq<Option<T>>, d: seq<Option<U>>, i: nat, end: nat,
                                                         accC: seq<T>, accD: seq<U>)
    requires i <= end <= |c|
    requires SameFailures(c, d)
    ensures Collect(c, i, end, accC).ok == Collect(d, i, end, accD).ok
    ensures Collect(c, i, end, accC).evaluated == Collect(d, i, end, accD).evaluated
    decreases end - i
  {
    if i < end && c[i].Some? {
      CollectFollowsFailures(c, d, i + 1, end, accC + [c[i].value], accD + [d[i].value]);
    }
  }

  /**
   `ReadValueArgs` behaves as `ReadArgs` on children that fail at the same
   indices — same success, same evaluated children — except that it also
   refuses an empty slice.
   */
  lemma ReadValueArgsMatchesReadArgs(values: seq<Option<Value>>, texts: seq<Option<string>>,
                                     vargs: seq<Value>, sargs: seq<string>, start: nat, len: nat)
    requires SameFailures(values, texts)
    ensures ReadValueArgs(values, Some(vargs), start, len).ok
        <==> len > 0 && ReadArgs(texts, Some(sargs), start, len).ok
    ensures len > 0 ==>
              ReadValueArgs(values, Some(vargs), start, len).evaluated == ReadArgs(texts, Some(sargs), start, len).evaluated
  {
    if start + len <= |values| {
      CollectFollowsFailures(values, texts, start, start + len, vargs, sargs);
    }
  }
}
