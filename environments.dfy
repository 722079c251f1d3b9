/** The scopes of src/environment.ts. A scope is a store of bindings plus an
    optional enclosing scope; lookups walk outward, writes touch only the
    current store. Two views are given: an arena, a sequence of frames in
    which each frame's `outer` points to an earlier frame (the evaluator
    threads it as a value), and class `Environment`, the mutable object
    itself, whose chain of frames is proved to be such an arena. */
module Environments {

  import opened Wrappers
  import opened Objects

  /** A store maps names to bindings; a binding of `None` is the source's
      `undefined`, which a call leaves for a missing argument. */
  type Store = map<string, Option<Object>>

  datatype Frame = Frame(store: Store, outer: Option<nat>)

  /** Every frame's enclosing frame comes before it. */
  predicate WellFormed(frames: seq<Frame>)
  {
    forall i :: 0 <= i < |frames| && frames[i].outer.Some? ==> frames[i].outer.value < i
  }

  /** `get`: the frame's own binding unless it is absent or `undefined`,
      otherwise the enclosing frame's answer, and `undefined` at the end of
      the chain. */
  function Lookup(frames: seq<Frame>, env: nat, name: string): (r: Option<Object>)
    decreases env
    ensures r.Some? ==> env < |frames|
  {
    if env >= |frames| then None
    else
      var f := frames[env];
      if name in f.store && f.store[name].Some? then f.store[name]
      else if f.outer.Some? && f.outer.value < env then Lookup(frames, f.outer.value, name)
      else None
  }

  /** `set`: rebind `name` in frame `env` and nowhere else. */
  function Bind(frames: seq<Frame>, env: nat, name: string, value: Option<Object>): (r: seq<Frame>)
    requires env < |frames|
    ensures |r| == |frames| && r[env].outer == frames[env].outer
    ensures r[env].store == frames[env].store[name := value]
    ensures forall i :: 0 <= i < |frames| && i != env ==> r[i] == frames[i]
    ensures WellFormed(frames) ==> WellFormed(r)
  {
    frames[env := frames[env].(store := frames[env].store[name := value])]
  }

  /** `new Environment(outer)`: a fresh, empty frame after all existing ones. */
  function NewFrame(frames: seq<Frame>, outer: Option<nat>): (r: seq<Frame>)
    requires outer.Some? ==> outer.value < |frames|
    ensures |r| == |frames| + 1 && r[..|frames|] == frames
    ensures r[|frames|] == Frame(map[], outer)
    ensures WellFormed(frames) ==> WellFormed(r)
  {
    frames + [Frame(map[], outer)]
  }

  /** After `set(n, v)` with a defined `v`, `get(n)` in that frame yields `v`. */
  lemma LookupAfterBind(frames: seq<Frame>, env: nat, name: string, v: Object)
    requires env < |frames|
    ensures Lookup(Bind(frames, env, name, Some(v)), env, name) == Some(v)
  {
  }

  /** Binding `undefined` makes `get` in that frame defer to the enclosing frame. */
  lemma LookupAfterBindUndefined(frames: seq<Frame>, env: nat, name: string)
    requires env < |frames| && WellFormed(frames)
    ensures var r := Bind(frames, env, name, None);
      Lookup(r, env, name) ==
        if frames[env].outer.Some? then Lookup(r, frames[env].outer.value, name) else None
  {
  }

  /** `set` does not affect lookups of any other name, in any frame. */
  lemma {:induction false} BindKeepsOtherNames(frames: seq<Frame>, env: nat, name: string,
                                                value: Option<Object>, e: nat, other: string)
    requires env < |frames| && other != name
    ensures Lookup(Bind(frames, env, name, value), e, other) == Lookup(frames, e, other)
    decreases e
  {
    var r := Bind(frames, env, name, value);
    if e < |frames| {
      var f := frames[e];
      if !(other in f.store && f.store[other].Some?) && f.outer.Some? && f.outer.value < e {
        BindKeepsOtherNames(frames, env, name, value, f.outer.value, other);
      }
    }
  }

  /** `set` on a frame leaves every lookup that starts in an earlier frame
      unchanged; in particular all enclosing frames still see their own
      bindings, so an inner binding shadows without overwriting. */
  lemma {:induction false} BindKeepsEarlierFrames(frames: seq<Frame>, env: nat, name: string,
                                                   value: Option<Object>, e: nat, n: string)
    requires env < |frames| && e < env
    ensures Lookup(Bind(frames, env, name, value), e, n) == Lookup(frames, e, n)
    decreases e
  {
    var f := frames[e];
    if !(n in f.store && f.store[n].Some?) && f.outer.Some? && f.outer.value < e {
      BindKeepsEarlierFrames(frames, env, name, value, f.outer.value, n);
    }
  }

  /** Shadowing: after binding `name` in an inner frame, lookups from that
      frame see the new value while lookups from its enclosing frame see
      what they saw before. */
  lemma Shadowing(frames: seq<Frame>, env: nat, name: string, v: Object)
    requires env < |frames| && WellFormed(frames) && frames[env].outer.Some?
    ensures var r := Bind(frames, env, name, Some(v));
      Lookup(r, env, name) == Some(v) &&
      Lookup(r, frames[env].outer.value, name) == Lookup(frames, frames[env].outer.value, name)
  {
    BindKeepsEarlierFrames(frames, env, name, Some(v), frames[env].outer.value, name);
  }

  /** Adding frames never changes what existing frames see. */
  lemma {:induction false} LookupExtend(frames: seq<Frame>, more: seq<Frame>, e: nat, n: string)
    requires e < |frames|
    ensures Lookup(frames + more, e, n) == Lookup(frames, e, n)
    decreases e
  {
    var all := frames + more;
    assert all[e] == frames[e];
    var f := frames[e];
    if !(n in f.store && f.store[n].Some?) && f.outer.Some? && f.outer.value < e {
      LookupExtend(frames, more, f.outer.value, n);
    }
  }

  /** A new, empty frame answers every lookup as its enclosing frame does, and
      `undefined` when it has none. */
  lemma NewFrameDefers(frames: seq<Frame>, outer: Option<nat>, n: string)
    requires outer.Some? ==> outer.value < |frames|
    ensures Lookup(NewFrame(frames, outer), |frames|, n) ==
      if outer.Some? then Lookup(frames, outer.value, n) else None
  {
    if outer.Some? {
      LookupExtend(frames, [Frame(map[], outer)], outer.value, n);
    }
  }

  /** The mutable scope object of src/environment.ts. */
  class Environment {
    var store: Store
    const outer: Environment?
    ghost const Repr: set<object>

    ghost predicate Valid()
      decreases Repr
    {
      this in Repr &&
      (outer != null ==>
        outer in Repr && outer.Repr <= Repr && this !in outer.Repr && outer.Valid())
    }

    /** The chain of stores from the outermost scope to this one, as an arena
        in which each frame's enclosing frame is the one just before it. */
    ghost function Frames(): (fs: seq<Frame>)
      reads Repr
      requires Valid()
      decreases Repr
      ensures |fs| > 0 && fs[|fs| - 1].store == store
      ensures fs[|fs| - 1].outer == (if outer == null then None else Some(|fs| - 2))
      ensures WellFormed(fs)
    {
      if outer == null then [Frame(store, None)]
      else
        var o := outer.Frames();
        o + [Frame(store, Some(|o| - 1))]
    }

    constructor (outer: Environment? := null)
      requires outer != null ==> outer.Valid()
      ensures Valid() && fresh(Repr - (if outer == null then {} else outer.Repr))
      ensures store == map[] && this.outer == outer
      ensures Frames() ==
        if outer == null then [Frame(map[], None)]
        else NewFrame(outer.Frames(), Some(|outer.Frames()| - 1))
    {
      this.store := map[];
      this.outer := outer;
      Repr := {this} + (if outer == null then {} else outer.Repr);
    }

    /** `get`, which agrees with the arena lookup from the last frame of the chain. */
    function Get(name: string): (r: Option<Object>)
      reads Repr
      requires Valid()
      decreases Repr
      ensures r == Lookup(Frames(), |Frames()| - 1, name)
    {
      if name in store && store[name].Some? then store[name]
      else if outer != null then
        LookupExtend(outer.Frames(), [Frame(store, Some(|outer.Frames()| - 1))],
                     |outer.Frames()| - 1, name);
        outer.Get(name)
      else None
    }

    /** `set`: rebinds `name` in this scope's own store and returns the value. */
    method Set(name: string, value: Option<Object>) returns (r: Option<Object>)
      requires Valid()
      modifies this`store
      ensures Valid() && store == old(store)[name := value] && r == value
      ensures Frames() == Bind(old(Frames()), |old(Frames())| - 1, name, value)
      ensures value.Some? ==> Get(name) == value
      ensures forall n :: n != name ==> Get(n) == old(Get(n))
    {
      ghost var before := Frames();
      store := store[name := value];
      r := value;
      assert outer != null ==> outer.Frames() == old(outer.Frames());
      ghost var after := Frames();
      assert after == Bind(before, |before| - 1, name, value);
      forall n | n != name
        ensures Get(n) == old(Get(n))
      {
        assert Get(n) == Lookup(after, |before| - 1, n);
        assert old(Get(n)) == Lookup(before, |before| - 1, n);
        BindKeepsOtherNames(before, |before| - 1, name, value, |before| - 1, n);
      }
    }
  }
}
