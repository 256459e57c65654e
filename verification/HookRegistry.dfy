/** Hook lists as Go slices: `append` may write into spare capacity that other slices share. */
module HookRegistry {

  /** A Go slice from the start of its backing array. */
  datatype Slice<H> = Slice(buf: array<H>, len: nat, cap: nat)

  ghost predicate InBounds<H>(s: Slice<H>)
  {
    s.len <= s.cap <= s.buf.Length
  }

  ghost function Items<H>(s: Slice<H>): seq<H>
    requires InBounds(s)
    reads s.buf
  {
    s.buf[..s.len]
  }

  /** Go's `append`: in place while the capacity lasts, otherwise into a new, larger array. `spare`
      is the room the runtime adds when it reallocates. */
  method Append<H(0)>(s: Slice<H>, xs: seq<H>, spare: nat) returns (r: Slice<H>)
    requires InBounds(s)
    modifies if xs != [] && s.len + |xs| <= s.cap then {s.buf} else {}
    ensures InBounds(r) && Items(r) == old(Items(s)) + xs
    ensures s.buf[..s.len] == old(s.buf[..s.len])
    ensures if s.len + |xs| <= s.cap then r == s.(len := s.len + |xs|) else fresh(r.buf)
    ensures s.len + |xs| <= s.cap ==> s.buf[s.len + |xs|..] == old(s.buf[s.len + |xs|..])
  {
    if xs == [] {
      r := s;
    } else if s.len + |xs| <= s.cap {
      CopyInto(s.buf, s.len, xs);
      r := s.(len := s.len + |xs|);
    } else {
      var n := s.len + |xs|;
      var buf := new H[n + spare];
      CopyInto(buf, 0, s.buf[..s.len]);
      CopyInto(buf, s.len, xs);
      r := Slice(buf, n, n + spare);
    }
  }

  method CopyInto<H>(buf: array<H>, at: nat, xs: seq<H>)
    requires at + |xs| <= buf.Length
    modifies buf
    ensures buf[..at] == old(buf[..at])
    ensures buf[..at + |xs|] == old(buf[..at]) + xs
    ensures buf[at + |xs|..] == old(buf[at + |xs|..])
  {
    for i := 0 to |xs|
      invariant buf[..at + i] == old(buf[..at]) + xs[..i]
      invariant buf[at + i..] == old(buf[at + i..])
    {
      assert old(buf[at + i..])[1..] == old(buf[at + i + 1..]);
      assert buf[at + i + 1..] == buf[at + i..][1..];
      buf[at + i] := xs[i];
      assert buf[..at + i + 1] == buf[..at + i] + [xs[i]];
    }
    assert buf[..at] == buf[..at + |xs|][..at];
  }

  /** A list that was handed out, with what it held then. */
  datatype Handout<H> = Handout(slice: Slice<H>, items: seq<H>, registered: nat)

  /** The hooks registered for one entity.  `Use` extends them, `Hooks` hands them out followed by
      the hooks of the schema.  An entity without schema hooks hands out its slice with the capacity
      uncut; the model cuts it for all of them, which shows only to a holder that appends itself. */
  class Registry<H(0)> {
    var current: Slice<H>
    const schemaHooks: seq<H>
    ghost var registered: seq<H>
    ghost var handouts: seq<Handout<H>>

    ghost predicate Valid()
      reads this, current.buf, set i | 0 <= i < |handouts| :: handouts[i].slice.buf
    {
      && InBounds(current) && Items(current) == registered
      && forall i :: 0 <= i < |handouts| ==> Intact(handouts[i])
    }

    /** The list still holds what it held when it was handed out: the hooks registered up to then,
        then the schema's; and nothing that may still be appended in place lies inside it. */
    ghost predicate Intact(h: Handout<H>)
      reads this, h.slice.buf
    {
      && InBounds(h.slice) && Items(h.slice) == h.items
      && h.registered <= |registered| && h.items == registered[..h.registered] + schemaHooks
      && (h.slice.buf == current.buf ==> h.slice.len <= current.len)
    }

    constructor (schemaHooks: seq<H>, capacity: nat)
      ensures Valid() && registered == [] && handouts == [] && this.schemaHooks == schemaHooks
      ensures fresh(current.buf)
    {
      var buf := new H[capacity];
      current := Slice(buf, 0, capacity);
      this.schemaHooks := schemaHooks;
      registered, handouts := [], [];
    }

    method Use(hooks: seq<H>, spare: nat)
      requires Valid()
      modifies this`current, this`registered, current.buf
      ensures Valid() && handouts == old(handouts)
      ensures registered == old(registered) + hooks
      ensures current.buf == old(current.buf) || fresh(current.buf)
    {
      current := Append(current, hooks, spare);
      registered := registered + hooks;
      forall i | 0 <= i < |handouts| ensures Intact(handouts[i]) {
        var h := handouts[i];
        assert old(Intact(h));
        assert Items(h.slice) == old(Items(h.slice)) by {
          if h.slice.buf == old(current.buf) {
            assert h.slice.buf[..h.slice.len] == h.slice.buf[..old(current.len)][..h.slice.len];
          }
        }
        assert registered[..h.registered] == old(registered)[..h.registered];
      }
    }

    /** `append(hooks[:len(hooks):len(hooks)], schemaHooks...)`: the full slice expression cuts the
        spare capacity off, so appending the schema's hooks never writes into the shared array. */
    method Hooks(spare: nat) returns (r: Slice<H>)
      requires Valid()
      modifies this`handouts
      ensures Valid() && registered == old(registered) && current == old(current)
      ensures InBounds(r) && Items(r) == registered + schemaHooks
      ensures handouts == old(handouts) + [Handout(r, registered + schemaHooks, |registered|)]
      ensures r.buf == current.buf || fresh(r.buf)
    {
      r := Append(current.(cap := current.len), schemaHooks, spare);
      handouts := handouts + [Handout(r, registered + schemaHooks, |registered|)];
      assert registered[..|registered|] == registered;
    }
  }

  // ----- Every interleaving -----

  datatype Call<H> = CallUse(hooks: seq<H>, spare: nat) | CallHooks(spare: nat)

  /** All hooks registered by a sequence of calls, in order. */
  ghost function UsedBy<H>(calls: seq<Call<H>>): seq<H> {
    if calls == [] then []
    else
      var c := calls[|calls| - 1];
      UsedBy(calls[..|calls| - 1]) + (if c.CallUse? then c.hooks else [])
  }

  /** The lists handed out by a sequence of calls on a new registry, in order. */
  ghost function HandedBy<H>(calls: seq<Call<H>>, schemaHooks: seq<H>): seq<seq<H>> {
    if calls == [] then []
    else
      var before := calls[..|calls| - 1];
      HandedBy(before, schemaHooks)
      + (if calls[|calls| - 1].CallHooks? then [UsedBy(before) + schemaHooks] else [])
  }

  /** After any interleaving of `Use` and `Hooks`, every list ever handed out still holds exactly the
      hooks registered before it was handed out, followed by the schema's. */
  method Interleave<H(0)>(calls: seq<Call<H>>, schemaHooks: seq<H>, capacity: nat) returns (lists: seq<Slice<H>>)
    ensures |lists| == |HandedBy(calls, schemaHooks)|
    ensures forall k :: 0 <= k < |lists| ==>
              InBounds(lists[k]) && Items(lists[k]) == HandedBy(calls, schemaHooks)[k]
  {
    var reg := new Registry(schemaHooks, capacity);
    lists := [];
    for i := 0 to |calls|
      invariant fresh(reg) && reg.Valid() && fresh(reg.current.buf) && reg.schemaHooks == schemaHooks
      invariant reg.registered == UsedBy(calls[..i])
      invariant |lists| == |reg.handouts| == |HandedBy(calls[..i], schemaHooks)|
      invariant forall k :: 0 <= k < |lists| ==> reg.handouts[k].slice == lists[k]
      invariant forall k :: 0 <= k < |lists| ==> reg.handouts[k].items == HandedBy(calls[..i], schemaHooks)[k]
    {
      assert calls[..i + 1][..i] == calls[..i];
      match calls[i]
      case CallUse(hooks, spare) => reg.Use(hooks, spare);
      case CallHooks(spare) =>
        var s := reg.Hooks(spare);
        lists := lists + [s];
    }
    assert calls[..|calls|] == calls;
    assert forall k :: 0 <= k < |lists| ==> reg.Intact(reg.handouts[k]);
  }

  // ----- Why the full slice expression is there -----

  /** Handing out `append(hooks, schemaHooks...)` instead, and then registering `hooks`: exactly when
      the spare capacity has room for both, the new hooks are written over the schema's in the list
      already handed out. */
  method WithoutFullSliceExpression<H(0)>(current: Slice<H>, schemaHooks: seq<H>, hooks: seq<H>, spare: nat)
    returns (handed: Slice<H>)
    requires InBounds(current)
    modifies current.buf
    ensures InBounds(handed)
    ensures Items(handed) == old(Items(current)) +
              if current.len + |schemaHooks| <= current.cap && current.len + |hooks| <= current.cap
              then Overwritten(schemaHooks, hooks) else schemaHooks
  {
    handed := Append(current, schemaHooks, spare);
    ghost var before := current.buf[..];
    ghost var items, was := old(Items(current)), Items(handed);
    var used := Append(current, hooks, spare);
    if current.len + |schemaHooks| <= current.cap && current.len + |hooks| <= current.cap {
      ghost var after := current.buf[..];
      ghost var n := current.len + |hooks|;
      assert before[..handed.len] == was && before[n..] == after[n..] && after[..n] == items + hooks;
      WriteOver(before, after, items, schemaHooks, hooks);
      assert Items(handed) == after[..handed.len];
    } else {
      assert Items(handed) == was;
    }
  }

  /** An array that held `was` behind `items`, and then `now`. */
  lemma WriteOver<H>(before: seq<H>, after: seq<H>, items: seq<H>, was: seq<H>, now: seq<H>)
    requires |before| == |after| && |items| + |was| <= |before| && |items| + |now| <= |after|
    requires before[..|items| + |was|] == items + was && after[..|items| + |now|] == items + now
    requires before[|items| + |now|..] == after[|items| + |now|..]
    ensures after[..|items| + |was|] == items + Overwritten(was, now)
  {
    var n := |items| + |now|;
    forall k | 0 <= k < |items| + |was| ensures after[k] == (items + Overwritten(was, now))[k] {
      if k < n {
        assert after[k] == after[..n][k];
      } else {
        assert after[k] == after[n..][k - n] == before[n..][k - n] == before[..|items| + |was|][k];
      }
    }
  }

  ghost function Overwritten<H>(was: seq<H>, now: seq<H>): seq<H> {
    if |now| < |was| then now + was[|now|..] else now[..|was|]
  }
}
