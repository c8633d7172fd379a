/** The sequence shapes the handlers build in loops: the mapped list (a
    comprehension), the filtered and mapped list (a comprehension with a
    condition), the first position
    satisfying a test (a search loop with `break`), and the list built by
    a loop that an exception ends at its first failing step. */
module Seqs {
  import opened Common

  /** `[f(x) for x in xs]`. */
  function Map<A, B>(xs: seq<A>, f: A -> B): (r: seq<B>)
    ensures |r| == |xs|
    ensures forall i :: 0 <= i < |xs| ==> r[i] == f(xs[i])
  {
    seq(|xs|, i requires 0 <= i < |xs| => f(xs[i]))
  }

  /** Mapping one more element appends its image. */
  lemma MapSnoc<A, B>(xs: seq<A>, f: A -> B, n: nat)
    requires n < |xs|
    ensures Map(xs[..n + 1], f) == Map(xs[..n], f) + [f(xs[n])]
  {
    assert forall i :: 0 <= i < n ==> xs[..n + 1][i] == xs[..n][i];
  }

  /** `[f(x) for x in xs if keep(x)]`. */
  function FilterMap<A, B>(xs: seq<A>, keep: A -> bool, f: A -> B): seq<B> {
    if |xs| == 0 then []
    else FilterMap(xs[..|xs| - 1], keep, f) + (if keep(xs[|xs| - 1]) then [f(xs[|xs| - 1])] else [])
  }

  /** One more element adds its image when it is kept. */
  lemma FilterMapSnoc<A, B>(xs: seq<A>, keep: A -> bool, f: A -> B, n: nat)
    requires n < |xs|
    ensures FilterMap(xs[..n + 1], keep, f) == FilterMap(xs[..n], keep, f) + (if keep(xs[n]) then [f(xs[n])] else [])
  {
    assert xs[..n + 1][..n] == xs[..n];
  }

  /** The result holds exactly the images of the kept elements, and is no
      longer than the input. */
  lemma {:induction false} FilterMapMembers<A, B>(xs: seq<A>, keep: A -> bool, f: A -> B)
    ensures forall y :: y in FilterMap(xs, keep, f) <==> exists i :: 0 <= i < |xs| && keep(xs[i]) && y == f(xs[i])
    ensures |FilterMap(xs, keep, f)| <= |xs|
  {
    if |xs| > 0 {
      var init := xs[..|xs| - 1];
      FilterMapMembers(init, keep, f);
      forall y
        ensures y in FilterMap(xs, keep, f) <==> exists i :: 0 <= i < |xs| && keep(xs[i]) && y == f(xs[i])
      {
        if y in FilterMap(init, keep, f) {
          var i :| 0 <= i < |init| && keep(init[i]) && y == f(init[i]);
          assert xs[i] == init[i];
        }
        if exists i :: 0 <= i < |xs| && keep(xs[i]) && y == f(xs[i]) {
          var i :| 0 <= i < |xs| && keep(xs[i]) && y == f(xs[i]);
          if i < |init| {
            assert xs[i] == init[i];
          }
        }
      }
    }
  }

  /** The first position whose element passes `p`, if any. */
  function FirstIndex<A>(xs: seq<A>, p: A -> bool): (r: Option<nat>)
    ensures r.Some? ==> r.value < |xs| && p(xs[r.value]) && forall j :: 0 <= j < r.value ==> !p(xs[j])
    ensures r.None? ==> forall j :: 0 <= j < |xs| ==> !p(xs[j])
  {
    if |xs| == 0 then None
    else if p(xs[0]) then Some(0)
    else match FirstIndex(xs[1..], p)
      case None => None
      case Some(i) => Some(i + 1)
  }

  /** The outcome of a loop that stops at the first failing step: the
      first error, else every value in order. */
  function Collect<T>(rs: seq<Result<T, string>>): (r: Result<seq<T>, string>)
  {
    if |rs| == 0 then Ok([])
    else match Collect(rs[..|rs| - 1])
      case Err(e) => Err(e)
      case Ok(vs) =>
        match rs[|rs| - 1]
        case Err(e) => Err(e)
        case Ok(v) => Ok(vs + [v])
  }

  /** A loop that stops at the first error succeeds exactly when every
      step does, with every step's value in order, and otherwise fails
      with the error of the first step that fails. */
  lemma {:induction false} CollectOutcome<T>(rs: seq<Result<T, string>>)
    ensures Collect(rs).Ok? <==> forall i :: 0 <= i < |rs| ==> rs[i].Ok?
    ensures Collect(rs).Ok? ==> |Collect(rs).value| == |rs|
    ensures Collect(rs).Ok? ==> forall i :: 0 <= i < |rs| ==> Collect(rs).value[i] == rs[i].value
    ensures forall k :: 0 <= k < |rs| && rs[k].Err? && (forall j :: 0 <= j < k ==> rs[j].Ok?) ==>
      Collect(rs) == Err(rs[k].error)
  {
    if |rs| > 0 {
      var init := rs[..|rs| - 1];
      CollectOutcome(init);
      assert forall i :: 0 <= i < |init| ==> init[i] == rs[i];
      forall k | 0 <= k < |rs| && rs[k].Err? && (forall j :: 0 <= j < k ==> rs[j].Ok?)
        ensures Collect(rs) == Err(rs[k].error)
      {
        if k < |init| {
          assert init[k].Err?;
          assert Collect(init) == Err(init[k].error);
        } else {
          assert Collect(init).Ok?;
        }
      }
    }
  }
}
