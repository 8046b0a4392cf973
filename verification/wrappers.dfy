/** The optional value used wherever the transcript code has `None`. */
module Wrappers {

  datatype Option<+T> = None | Some(value: T)

  /** The values present in a sequence of options, in order. */
  function Present<T(!new)>(xs: seq<Option<T>>): (r: seq<T>)
    ensures |r| <= |xs|
    ensures forall v :: v in r <==> Some(v) in xs
  {
    if |xs| == 0 then []
    else
      var rest := Present(xs[1..]);
      assert forall v :: Some(v) in xs <==> xs[0] == Some(v) || Some(v) in xs[1..];
      if xs[0].Some? then [xs[0].value] + rest else rest
  }

  /** `Present` of consecutive runs is `Present` of each run, in order. */
  lemma {:induction false} PresentAppend<T(!new)>(xs: seq<Option<T>>, ys: seq<Option<T>>)
    ensures Present(xs + ys) == Present(xs) + Present(ys)
    decreases |xs|
  {
    if |xs| == 0 {
      assert xs + ys == ys;
    } else {
      assert (xs + ys)[0] == xs[0];
      assert (xs + ys)[1..] == xs[1..] + ys;
      PresentAppend(xs[1..], ys);
    }
  }
}
