/** The `coalesce` helper of nicetable/functions.py. */
module Functions {
  import opened Wrappers

  /** `coalesce(*args)`: the first argument that is not None, or None when there is none. */
  function Coalesce<T>(args: seq<Option<T>>): (r: Option<T>)
    ensures r.None? <==> forall i | 0 <= i < |args| :: args[i].None?
    ensures r.Some? ==> exists i | 0 <= i < |args| :: args[i] == r && forall j | 0 <= j < i :: args[j].None?
  {
    if |args| == 0 then None
    else if args[0].Some? then args[0]
    else
      var r := Coalesce(args[1..]);
      assert r.Some? ==> exists i | 1 <= i < |args| :: args[i] == r && forall j | 1 <= j < i :: args[j].None?;
      r
  }

  /** A present first argument wins, whatever follows it. */
  lemma CoalesceFirst<T>(x: T, rest: seq<Option<T>>)
    ensures Coalesce([Some(x)] + rest) == Some(x)
  {
  }

  /** With no arguments, or only None arguments, the result is None. */
  lemma CoalesceAllNone<T>(args: seq<Option<T>>)
    requires forall i | 0 <= i < |args| :: args[i] == None
    ensures Coalesce(args) == None
  {
  }

  /** Arguments after the first present one do not affect the result, and a run of
      leading None arguments can be dropped. */
  lemma {:induction false} CoalesceAppend<T>(a: seq<Option<T>>, b: seq<Option<T>>)
    ensures Coalesce(a).Some? ==> Coalesce(a + b) == Coalesce(a)
    ensures Coalesce(a).None? ==> Coalesce(a + b) == Coalesce(b)
  {
    if |a| > 0 {
      assert (a + b)[0] == a[0];
      assert (a + b)[1..] == a[1..] + b;
      CoalesceAppend(a[1..], b);
    } else {
      assert a + b == b;
    }
  }

  /** `coalesce(x, d)` with a present default `d`: `x` when present, `d` otherwise. */
  lemma CoalescePair<T>(x: Option<T>, d: T)
    ensures Coalesce([x, Some(d)]) == if x.Some? then x else Some(d)
  {
    assert [x, Some(d)][1..] == [Some(d)];
    assert [Some(d)][1..] == [];
  }

  /** The result is either None or equal to one of the arguments. */
  lemma CoalesceIsAnArgument<T>(args: seq<Option<T>>)
    ensures Coalesce(args) == None || Coalesce(args) in args
  {
  }
}
