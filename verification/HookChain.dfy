/** Composing hooks and interceptors: a backward loop that wraps the innermost mutator. */
module HookChain {
  import opened Wrappers

  /** `f(g(h(base)))` for the list `[f, g, h]`. */
  function Nest<M>(hooks: seq<M -> M>, base: M): M {
    if hooks == [] then base else hooks[0](Nest(hooks[1..], base))
  }

  /** The loop of `withInterceptors` and of bulk `Save`. */
  method Compose<M>(hooks: seq<M -> M>, base: M) returns (mut: M)
    ensures mut == Nest(hooks, base)
  {
    mut := base;
    for i := |hooks| downto 0
      invariant mut == Nest(hooks[i..], base)
    {
      mut := hooks[i](mut);
      assert hooks[i..][1..] == hooks[i + 1..];
    }
  }

  ghost function Given<M>(hooks: seq<Option<M -> M>>): seq<M -> M>
    requires forall i :: 0 <= i < |hooks| ==> hooks[i].Some?
  {
    seq(|hooks|, i requires 0 <= i < |hooks| => hooks[i].value)
  }

  /** The loop of `withHooks`, where a hook may be missing: it fails exactly if one is. */
  method ComposeChecked<M>(hooks: seq<Option<M -> M>>, base: M) returns (r: Option<M>)
    ensures r.Some? <==> forall i :: 0 <= i < |hooks| ==> hooks[i].Some?
    ensures r.Some? ==> r.value == Nest(Given(hooks), base)
  {
    var mut := base;
    for i := |hooks| downto 0
      invariant forall j :: i <= j < |hooks| ==> hooks[j].Some?
      invariant mut == Nest(Given(hooks[i..]), base)
    {
      if hooks[i].None? { return None; }
      mut := hooks[i].value(mut);
      assert Given(hooks[i..])[1..] == Given(hooks[i + 1..]);
    }
    assert hooks[0..] == hooks;
    r := Some(mut);
  }

  /** One hook wraps, none leaves alone, and `Use(f, g, h)` runs as f(g(h)). */
  lemma NestMeans<M>(f: M -> M, g: M -> M, h: M -> M, base: M)
    ensures Nest([], base) == base && Nest([f], base) == f(base)
    ensures Nest([f, g, h], base) == f(g(h(base)))
  {
    assert [f][1..] == [];
    assert [f, g, h][1..] == [g, h] && [g, h][1..] == [h] && [h][1..] == [];
    assert Nest([h], base) == h(base) && Nest([g, h], base) == g(h(base));
  }

  /** Every hook is entered once, from the first to the last: with hooks that write their number in front
      of a log, the log lists them in order. */
  lemma {:induction false} NestVisits(hooks: seq<seq<nat> -> seq<nat>>, first: nat, base: seq<nat>)
    requires forall i, log :: 0 <= i < |hooks| ==> hooks[i](log) == [first + i] + log
    ensures Nest(hooks, base) == seq(|hooks|, i requires i >= 0 => first + i) + base
  {
    if hooks == [] {
      assert Nest(hooks, base) == base;
    } else {
      var rest := hooks[1..];
      forall i, log | 0 <= i < |rest| ensures rest[i](log) == [first + 1 + i] + log {
        assert rest[i] == hooks[i + 1];
      }
      NestVisits(rest, first + 1, base);
      assert hooks[0](Nest(rest, base)) == [first + 0] + Nest(rest, base);
    }
  }

  /** Two calls of `Use` nest like one call with both lists. */
  lemma {:induction false} NestConcat<M>(outer: seq<M -> M>, inner: seq<M -> M>, base: M)
    ensures Nest(outer + inner, base) == Nest(outer, Nest(inner, base))
  {
    if outer == [] {
      assert outer + inner == inner;
    } else {
      assert (outer + inner)[1..] == outer[1..] + inner;
      NestConcat(outer[1..], inner, base);
    }
  }
}
