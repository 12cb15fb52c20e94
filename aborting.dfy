/**
 * A loop whose body may raise: the scripts do not catch these exceptions,
 * so the first element whose step fails ends the whole run with that
 * error, and the results of the elements before it are lost.
 */
module Aborting {
  import opened Wrappers

  /** Runs `step` on every element in order, stopping at the first error. */
  function Traverse<A, B>(xs: seq<A>, step: A -> Result<B>): (r: Result<seq<B>>)
    ensures r.Ok? ==> |r.value| == |xs|
  {
    if xs == [] then Ok([])
    else
      match Traverse(xs[..|xs| - 1], step)
      case Err(e) => Err(e)
      case Ok(ys) =>
        match step(xs[|xs| - 1])
        case Err(e) => Err(e)
        case Ok(y) => Ok(ys + [y])
  }

  /** The run completes exactly when every step succeeds, with each step's result in place. */
  lemma {:induction false} TraverseOk<A, B>(xs: seq<A>, step: A -> Result<B>)
    ensures Traverse(xs, step).Ok? <==> forall i | 0 <= i < |xs| :: step(xs[i]).Ok?
    ensures Traverse(xs, step).Ok? ==>
      forall i | 0 <= i < |xs| :: Traverse(xs, step).value[i] == step(xs[i]).value
  {
    if xs != [] {
      var init := xs[..|xs| - 1];
      TraverseOk(init, step);
      assert forall i | 0 <= i < |init| :: init[i] == xs[i];
    }
  }

  /** A failed run reports the error of the first element whose step fails. */
  lemma {:induction false} TraverseFirstError<A, B>(xs: seq<A>, step: A -> Result<B>)
    requires Traverse(xs, step).Err?
    ensures exists i | 0 <= i < |xs| ::
      && step(xs[i]).Err?
      && Traverse(xs, step).error == step(xs[i]).error
      && forall j | 0 <= j < i :: step(xs[j]).Ok?
  {
    var init := xs[..|xs| - 1];
    assert forall j | 0 <= j < |init| :: init[j] == xs[j];
    if Traverse(init, step).Err? {
      TraverseFirstError(init, step);
      var i :| 0 <= i < |init| && step(init[i]).Err? && Traverse(init, step).error == step(init[i]).error
        && forall j | 0 <= j < i :: step(init[j]).Ok?;
      assert step(xs[i]).Err?;
    } else {
      TraverseOk(init, step);
      assert step(xs[|xs| - 1]).Err?;
    }
  }

  /** Once a prefix of the run has failed, nothing after it changes the outcome. */
  lemma {:induction false} TraverseStopsAtError<A, B>(xs: seq<A>, k: nat, step: A -> Result<B>)
    requires k <= |xs|
    requires Traverse(xs[..k], step).Err?
    ensures Traverse(xs, step) == Traverse(xs[..k], step)
    decreases |xs| - k
  {
    if k < |xs| {
      var init := xs[..|xs| - 1];
      assert init[..k] == xs[..k];
      TraverseStopsAtError(init, k, step);
    } else {
      assert xs[..k] == xs;
    }
  }

  /** One more element extends a completed run by its step's result, or fails with its error. */
  lemma TraverseAppend<A, B>(xs: seq<A>, x: A, step: A -> Result<B>)
    requires Traverse(xs, step).Ok?
    ensures step(x).Ok? ==> Traverse(xs + [x], step) == Ok(Traverse(xs, step).value + [step(x).value])
    ensures step(x).Err? ==> Traverse(xs + [x], step) == Err(step(x).error)
  {
    assert (xs + [x])[..|xs|] == xs;
  }

  /** A run over two lists is the run over the first followed by the run over the second. */
  lemma {:induction false} TraverseConcat<A, B>(xs: seq<A>, ys: seq<A>, step: A -> Result<B>)
    ensures Traverse(xs + ys, step) ==
      match Traverse(xs, step)
      case Err(e) => Err(e)
      case Ok(us) =>
        match Traverse(ys, step)
        case Err(e) => Err(e)
        case Ok(vs) => Ok(us + vs)
  {
    if ys == [] {
      assert xs + ys == xs;
      if Traverse(xs, step).Ok? {
        assert Traverse(xs, step).value + [] == Traverse(xs, step).value;
      }
    } else {
      var init := ys[..|ys| - 1];
      assert (xs + ys)[..|xs + ys| - 1] == xs + init;
      TraverseConcat(xs, init, step);
      if Traverse(xs, step).Ok? && Traverse(init, step).Ok? {
        var us, ws := Traverse(xs, step).value, Traverse(init, step).value;
        if step(ys[|ys| - 1]).Ok? {
          assert us + (ws + [step(ys[|ys| - 1]).value]) == (us + ws) + [step(ys[|ys| - 1]).value];
        }
      }
    }
  }

  /**
   * An element whose step succeeds changes nothing about whether the run
   * fails, nor which error it stops with; on success it adds its own value
   * in its place.
   */
  lemma TraverseAround<A, B>(before: seq<A>, x: A, after: seq<A>, step: A -> Result<B>)
    requires step(x).Ok?
    ensures Traverse(before + [x] + after, step).Err? ==> Traverse(before + [x] + after, step) == Traverse(before + after, step)
    ensures Traverse(before + after, step).Err? ==> Traverse(before + [x] + after, step).Err?
    ensures Traverse(before + [x] + after, step).Ok? ==>
      && Traverse(before, step).Ok? && Traverse(after, step).Ok?
      && Traverse(before + [x] + after, step).value == Traverse(before, step).value + [step(x).value] + Traverse(after, step).value
      && Traverse(before + after, step).value == Traverse(before, step).value + Traverse(after, step).value
  {
    TraverseConcat(before + [x], after, step);
    TraverseConcat(before, [x], step);
    TraverseConcat(before, after, step);
    assert [x][..0] == [];
    assert Traverse([x], step) == Ok([] + [step(x).value]);
    assert [] + [step(x).value] == [step(x).value];
  }
}
