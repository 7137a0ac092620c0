/** First-match search: the shape shared by the open-files and disk checks,
    which stop at the first offending item and report it. */
module Search {
  import opened Wrappers

  /** The outcome of the first item of `xs` for which `f` reports something,
      or `None` when `f` reports nothing for every item. */
  function FirstSome<T, U>(xs: seq<T>, f: T -> Option<U>): Option<U>
  {
    if xs == [] then None
    else if f(xs[0]).Some? then f(xs[0])
    else FirstSome(xs[1..], f)
  }

  /** The search passes exactly when no item reports anything. */
  lemma {:induction false} FirstSomeNone<T, U>(xs: seq<T>, f: T -> Option<U>)
    ensures FirstSome(xs, f).None? <==> forall i :: 0 <= i < |xs| ==> f(xs[i]).None?
  {
    if xs != [] && f(xs[0]).None? {
      FirstSomeNone(xs[1..], f);
      assert forall i :: 1 <= i < |xs| ==> xs[i] == xs[1..][i - 1];
    }
  }

  /** When the search fails, it returns the report of an item before which
      no item reports anything. */
  lemma {:induction false} FirstSomeFirst<T, U>(xs: seq<T>, f: T -> Option<U>)
    ensures FirstSome(xs, f).Some? ==>
              exists i :: 0 <= i < |xs| && f(xs[i]) == FirstSome(xs, f) &&
                          forall j :: 0 <= j < i ==> f(xs[j]).None?
  {
    if xs == [] {
      // nothing is reported
    } else if f(xs[0]).Some? {
      assert f(xs[0]) == FirstSome(xs, f);
    } else if FirstSome(xs, f).Some? {
      var tail := xs[1..];
      FirstSomeFirst(tail, f);
      var i :| 0 <= i < |tail| && f(tail[i]) == FirstSome(tail, f) &&
               forall j :: 0 <= j < i ==> f(tail[j]).None?;
      assert xs[i + 1] == tail[i];
      forall j | 0 <= j < i + 1 ensures f(xs[j]).None? {
        if j > 0 { assert xs[j] == tail[j - 1]; }
      }
    }
  }

  /** Items after the first match are never looked at; when the prefix has
      no match the search continues with the suffix. */
  lemma {:induction false} FirstSomeAppend<T, U>(xs: seq<T>, ys: seq<T>, f: T -> Option<U>)
    ensures FirstSome(xs + ys, f) ==
              if FirstSome(xs, f).Some? then FirstSome(xs, f) else FirstSome(ys, f)
  {
    if xs != [] {
      assert (xs + ys)[0] == xs[0];
      assert (xs + ys)[1..] == xs[1..] + ys;
      FirstSomeAppend(xs[1..], ys, f);
    } else {
      assert xs + ys == ys;
    }
  }

  /** One step of a left-to-right search whose prefix `xs[..i]` reported
      nothing: a silent item extends the silent prefix, and a reporting item
      is the outcome of the whole search. */
  lemma FirstSomeStep<T, U>(xs: seq<T>, i: nat, f: T -> Option<U>)
    requires i < |xs| && FirstSome(xs[..i], f).None?
    ensures f(xs[i]).None? ==> FirstSome(xs[..i + 1], f).None?
    ensures f(xs[i]).Some? ==> FirstSome(xs, f) == f(xs[i])
  {
    assert xs[..i + 1] == xs[..i] + [xs[i]];
    assert xs == xs[..i] + xs[i..];
    FirstSomeAppend(xs[..i], [xs[i]], f);
    FirstSomeAppend(xs[..i], xs[i..], f);
  }

  /** An item that reports nothing can be added anywhere without changing
      the outcome of the search. */
  lemma SilentItemIrrelevant<T, U>(xs: seq<T>, x: T, ys: seq<T>, f: T -> Option<U>)
    requires f(x).None?
    ensures FirstSome(xs + [x] + ys, f) == FirstSome(xs + ys, f)
  {
    FirstSomeAppend(xs + [x], ys, f);
    FirstSomeAppend(xs, [x], f);
    FirstSomeAppend(xs, ys, f);
  }
}
