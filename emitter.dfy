/** The event emitter: a map from event names to the callbacks registered for
    them, in registration order. Listener functions are modelled by opaque
    identities; calling one is recorded, not executed. */
module Emitter {
  import opened Common

  /** The identity of a listener function supplied by the caller. */
  type ListenerId = nat

  /** What an event's list holds: a listener registered with `on`, or the
      wrapper `once` registers in its place. A wrapper is a fresh function
      (identity `wrap`) that carries the listener it wraps. */
  datatype Callback = Fn(id: ListenerId) | Wrapper(wrap: nat, listener: ListenerId)

  /** The listener a stored callback ends up calling when the event fires. */
  function Invokes(cb: Callback): ListenerId
  {
    if cb.Fn? then cb.id else cb.listener
  }

  /** The test `removeListener` applies to each stored entry: the entry is the
      callback asked for, or a wrapper around that listener. */
  predicate Matches(cb: Callback, target: Callback)
  {
    cb == target || (cb.Wrapper? && target.Fn? && cb.listener == target.id)
  }

  /** The position of the last entry of `rs` that matches `target`. */
  function LastMatch(rs: seq<Callback>, target: Callback): (r: Option<nat>)
    ensures r.Some? ==> r.value < |rs| && Matches(rs[r.value], target)
    ensures r.Some? ==> forall j :: r.value < j < |rs| ==> !Matches(rs[j], target)
    ensures r.None? <==> forall j :: 0 <= j < |rs| ==> !Matches(rs[j], target)
  {
    if rs == [] then None
    else if Matches(rs[|rs| - 1], target) then Some(|rs| - 1)
    else LastMatch(rs[..|rs| - 1], target)
  }

  /** A matching entry after which nothing matches is the last match. */
  lemma LastMatchIs(rs: seq<Callback>, target: Callback, i: nat)
    requires i < |rs| && Matches(rs[i], target)
    requires forall j :: i < j < |rs| ==> !Matches(rs[j], target)
    ensures LastMatch(rs, target) == Some(i)
  {
  }

  /** The list with its last entry matching `target` spliced out. */
  function RemoveLast(rs: seq<Callback>, target: Callback): seq<Callback>
  {
    match LastMatch(rs, target)
    case None => rs
    case Some(i) => rs[..i] + rs[i + 1..]
  }

  /** The callbacks stored for `name`; none when the name is absent. */
  function Get(events: map<string, seq<Callback>>, name: string): seq<Callback>
  {
    if name in events then events[name] else []
  }

  /** Stores `rs` for `name`, deleting the name when `rs` is empty. */
  function Put(events: map<string, seq<Callback>>, name: string, rs: seq<Callback>): map<string, seq<Callback>>
  {
    if rs == [] then events - {name} else events[name := rs]
  }

  /** The store after `addListener(name, cb)`. */
  function Added(events: map<string, seq<Callback>>, name: string, cb: Callback): map<string, seq<Callback>>
  {
    events[name := Get(events, name) + [cb]]
  }

  /** The store after `removeListener(name, target)`. */
  function Removed(events: map<string, seq<Callback>>, name: string, target: Callback): map<string, seq<Callback>>
  {
    if name in events then Put(events, name, RemoveLast(events[name], target)) else events
  }

  /** The wrappers of `rs` are distinct functions. */
  ghost predicate DistinctWrappers(rs: seq<Callback>)
  {
    forall i, j :: 0 <= i < j < |rs| && rs[i].Wrapper? && rs[j].Wrapper? ==> rs[i].wrap != rs[j].wrap
  }

  /** Every list is non-empty, its wrappers are distinct and were made before
      the wrapper counter reached `bound`. */
  ghost predicate WellFormed(events: map<string, seq<Callback>>, bound: nat)
  {
    forall name :: name in events ==>
      && events[name] != []
      && DistinctWrappers(events[name])
      && (forall i :: 0 <= i < |events[name]| && events[name][i].Wrapper? ==> events[name][i].wrap < bound)
  }

  /** The store left once an emit has run the callbacks `cbs` of `name` in
      order. A wrapper removes, before calling its listener, the last entry
      matching the listener it wraps (`selfRemoval` false, as the wrapper is
      written) or the wrapper itself (`selfRemoval` true). */
  function Fire(events: map<string, seq<Callback>>, name: string, cbs: seq<Callback>, selfRemoval: bool): map<string, seq<Callback>>
    decreases |cbs|
  {
    if cbs == [] then events
    else
      var before := Fire(events, name, cbs[..|cbs| - 1], selfRemoval);
      var cb := cbs[|cbs| - 1];
      if cb.Fn? then before
      else if selfRemoval then Removed(before, name, cb)
      else Removed(before, name, Fn(cb.listener))
  }

  /** The callbacks of `cbs` registered with `on`, in order. */
  function Plains(cbs: seq<Callback>): seq<Callback>
    decreases |cbs|
  {
    if cbs == [] then []
    else Plains(cbs[..|cbs| - 1]) + (if cbs[|cbs| - 1].Fn? then [cbs[|cbs| - 1]] else [])
  }

  /** Adding a listener and then removing it restores the store. */
  lemma {:induction false} AddRemoveRoundTrip(events: map<string, seq<Callback>>, name: string, l: ListenerId)
    requires name in events ==> events[name] != []
    ensures Removed(Added(events, name, Fn(l)), name, Fn(l)) == events
  {
    var rs := Get(events, name) + [Fn(l)];
    LastMatchIs(rs, Fn(l), |rs| - 1);
    assert rs[..|rs| - 1] + rs[|rs|..] == Get(events, name);
    if name !in events {
      assert Added(events, name, Fn(l)) - {name} == events;
    }
  }

  /** Removal takes one entry away exactly when one matches, and touches no
      other event. */
  lemma RemovedCount(events: map<string, seq<Callback>>, name: string, target: Callback)
    ensures |Get(Removed(events, name, target), name)|
         == |Get(events, name)| - (if exists j :: 0 <= j < |Get(events, name)| && Matches(Get(events, name)[j], target) then 1 else 0)
    ensures forall other :: other != name ==> Get(Removed(events, name, target), other) == Get(events, other)
  {
    if name in events {
      var r := LastMatch(events[name], target);
      if r.None? {
        assert !exists j :: 0 <= j < |Get(events, name)| && Matches(Get(events, name)[j], target);
      }
    }
  }

  /** Removing a listener that nothing matches leaves a well-formed store as
      it was. */
  lemma RemoveAbsent(events: map<string, seq<Callback>>, name: string, target: Callback, bound: nat)
    requires WellFormed(events, bound)
    requires forall j :: 0 <= j < |Get(events, name)| ==> !Matches(Get(events, name)[j], target)
    ensures Removed(events, name, target) == events
  {
    if name in events {
      assert Get(events, name) == events[name];
      assert LastMatch(events[name], target).None?;
      assert events[name := events[name]] == events;
    }
  }

  /** Splicing an entry out keeps the wrappers distinct and bounded. */
  lemma RemoveLastKeeps(rs: seq<Callback>, target: Callback, bound: nat)
    requires DistinctWrappers(rs)
    requires forall i :: 0 <= i < |rs| && rs[i].Wrapper? ==> rs[i].wrap < bound
    ensures DistinctWrappers(RemoveLast(rs, target))
    ensures forall i :: 0 <= i < |RemoveLast(rs, target)| && RemoveLast(rs, target)[i].Wrapper? ==>
      RemoveLast(rs, target)[i].wrap < bound
  {
    match LastMatch(rs, target)
    case None =>
    case Some(k) =>
      var out := rs[..k] + rs[k + 1..];
      assert forall i :: 0 <= i < |out| ==> out[i] == rs[if i < k then i else i + 1];
  }

  /** Removal keeps the store well formed. */
  lemma RemovedWellFormed(events: map<string, seq<Callback>>, name: string, target: Callback, bound: nat)
    requires WellFormed(events, bound)
    ensures WellFormed(Removed(events, name, target), bound)
  {
    if name in events {
      RemoveLastKeeps(events[name], target, bound);
    }
  }

  /** A wrapper unregistering itself from the stored list `prefix + rest`,
      where it heads `rest` and no later wrapper shares its identity. */
  lemma SelfRemovalStep(events: map<string, seq<Callback>>, name: string, prefix: seq<Callback>, rest: seq<Callback>)
    requires rest != [] && rest[0].Wrapper?
    requires forall j :: 0 < j < |rest| && rest[j].Wrapper? ==> rest[j].wrap != rest[0].wrap
    ensures Removed(Put(events, name, prefix + rest), name, rest[0]) == Put(events, name, prefix + rest[1..])
  {
    var rs := prefix + rest;
    forall j | |prefix| < j < |rs| ensures !Matches(rs[j], rest[0]) {
      assert rs[j] == rest[j - |prefix|];
    }
    LastMatchIs(rs, rest[0], |prefix|);
    assert rs[..|prefix|] + rs[|prefix| + 1..] == prefix + rest[1..];
    assert events[name := rs][name := prefix + rest[1..]] == events[name := prefix + rest[1..]];
    assert events[name := rs] - {name} == events - {name};
  }

  /** The wrapper as intended: after `p` callbacks of the emitted list have
      run, the `once` wrappers among them are gone and the `on` listeners
      among them stay, in order, ahead of the callbacks still to run. */
  lemma {:induction false} FireSelfRemovalPrefix(events: map<string, seq<Callback>>, name: string, p: nat)
    requires name in events && events[name] != [] && DistinctWrappers(events[name]) && p <= |events[name]|
    ensures Fire(events, name, events[name][..p], true) == Put(events, name, Plains(events[name][..p]) + events[name][p..])
  {
    var cbs := events[name];
    if p == 0 {
      assert cbs[..0] == [] && cbs[0..] == cbs;
      assert Plains(cbs[..0]) + cbs[0..] == cbs;
      assert events[name := cbs] == events;
    } else {
      FireSelfRemovalPrefix(events, name, p - 1);
      FireSelfRemovalOneMore(events, name, cbs, p);
    }
  }

  /** The inductive step of `FireSelfRemovalPrefix`. */
  lemma FireSelfRemovalOneMore(events: map<string, seq<Callback>>, name: string, cbs: seq<Callback>, p: nat)
    requires 0 < p <= |cbs| && DistinctWrappers(cbs)
    requires Fire(events, name, cbs[..p - 1], true) == Put(events, name, Plains(cbs[..p - 1]) + cbs[p - 1..])
    ensures Fire(events, name, cbs[..p], true) == Put(events, name, Plains(cbs[..p]) + cbs[p..])
  {
    if cbs[p - 1].Fn? {
      PlainOneMore(events, name, cbs, p);
    } else {
      WrapperOneMore(events, name, cbs, p);
    }
  }

  /** An `on` listener runs and stays. */
  lemma PlainOneMore(events: map<string, seq<Callback>>, name: string, cbs: seq<Callback>, p: nat)
    requires 0 < p <= |cbs| && cbs[p - 1].Fn?
    requires Fire(events, name, cbs[..p - 1], true) == Put(events, name, Plains(cbs[..p - 1]) + cbs[p - 1..])
    ensures Fire(events, name, cbs[..p], true) == Put(events, name, Plains(cbs[..p]) + cbs[p..])
  {
    var q := p - 1;
    assert Fire(events, name, cbs[..p], true) == Fire(events, name, cbs[..q], true) by {
      FirePrefixStep(events, name, cbs, p, true);
    }
    assert Plains(cbs[..p]) == Plains(cbs[..q]) + [cbs[q]] by {
      PlainsPrefixStep(cbs, p);
    }
    assert cbs[q..] == [cbs[q]] + cbs[p..];
    assert Plains(cbs[..p]) + cbs[p..] == Plains(cbs[..q]) + cbs[q..];
  }

  /** A `once` wrapper runs and unregisters itself. */
  lemma WrapperOneMore(events: map<string, seq<Callback>>, name: string, cbs: seq<Callback>, p: nat)
    requires 0 < p <= |cbs| && cbs[p - 1].Wrapper? && DistinctWrappers(cbs)
    requires Fire(events, name, cbs[..p - 1], true) == Put(events, name, Plains(cbs[..p - 1]) + cbs[p - 1..])
    ensures Fire(events, name, cbs[..p], true) == Put(events, name, Plains(cbs[..p]) + cbs[p..])
  {
    var q := p - 1;
    var prefix := Plains(cbs[..q]);
    var before := Fire(events, name, cbs[..q], true);
    FirePrefixStep(events, name, cbs, p, true);
    assert Fire(events, name, cbs[..p], true) == Removed(before, name, cbs[q]);
    PlainsPrefixStep(cbs, p);
    assert Plains(cbs[..p]) == prefix;
    WrapperStep(events, name, prefix, cbs, q);
  }

  /** `Fire` over one more callback. */
  lemma FirePrefixStep(events: map<string, seq<Callback>>, name: string, cbs: seq<Callback>, p: nat, selfRemoval: bool)
    requires 0 < p <= |cbs|
    ensures var before := Fire(events, name, cbs[..p - 1], selfRemoval);
      Fire(events, name, cbs[..p], selfRemoval)
        == if cbs[p - 1].Fn? then before
           else if selfRemoval then Removed(before, name, cbs[p - 1])
           else Removed(before, name, Fn(cbs[p - 1].listener))
  {
    assert cbs[..p][..p - 1] == cbs[..p - 1];
  }

  /** `Plains` over one more callback. */
  lemma PlainsPrefixStep(cbs: seq<Callback>, p: nat)
    requires 0 < p <= |cbs|
    ensures Plains(cbs[..p]) == Plains(cbs[..p - 1]) + (if cbs[p - 1].Fn? then [cbs[p - 1]] else [])
  {
    assert cbs[..p][..p - 1] == cbs[..p - 1];
  }

  /** A wrapper at `q` removes itself from the list whose first `q` entries
      are already reduced to `prefix`. */
  lemma WrapperStep(events: map<string, seq<Callback>>, name: string, prefix: seq<Callback>, cbs: seq<Callback>, q: nat)
    requires q < |cbs| && cbs[q].Wrapper? && DistinctWrappers(cbs)
    ensures Removed(Put(events, name, prefix + cbs[q..]), name, cbs[q]) == Put(events, name, prefix + cbs[q + 1..])
  {
    var rest := cbs[q..];
    forall j | 0 < j < |rest| && rest[j].Wrapper? ensures rest[j].wrap != rest[0].wrap {
      assert rest[j] == cbs[q + j];
    }
    SelfRemovalStep(events, name, prefix, rest);
    assert rest[1..] == cbs[q + 1..];
  }


  /** With the wrapper removing itself, an emit leaves exactly the `on`
      listeners of the event, in order. */
  lemma FireSelfRemoval(events: map<string, seq<Callback>>, name: string)
    requires name in events && events[name] != [] && DistinctWrappers(events[name])
    ensures Fire(events, name, events[name], true) == Put(events, name, Plains(events[name]))
  {
    var cbs := events[name];
    FireSelfRemovalPrefix(events, name, |cbs|);
    assert cbs[..|cbs|] == cbs;
    assert cbs[|cbs|..] == [];
    assert Plains(cbs) + [] == Plains(cbs);
  }

  /** As the wrapper is written, a `once` listener registered before an `on`
      registration of the same function takes the `on` registration with it
      and survives the emit; with self-removal the `on` registration stays. */
  lemma OnceRemovesLaterRegistration()
    ensures Fire(map["e" := [Wrapper(0, 7), Fn(7)]], "e", [Wrapper(0, 7), Fn(7)], false) == map["e" := [Wrapper(0, 7)]]
    ensures Fire(map["e" := [Wrapper(0, 7), Fn(7)]], "e", [Wrapper(0, 7), Fn(7)], true) == map["e" := [Fn(7)]]
  {
    var m := map["e" := [Wrapper(0, 7), Fn(7)]];
    var cbs := [Wrapper(0, 7), Fn(7)];
    assert cbs[..1] == [Wrapper(0, 7)] && cbs[..1][..0] == [];
    LastMatchIs(cbs, Fn(7), 1);
    LastMatchIs(cbs, Wrapper(0, 7), 0);
    assert cbs[..1] + cbs[2..] == [Wrapper(0, 7)];
    assert cbs[..0] + cbs[1..] == [Fn(7)];
  }

  /** The listeners the callbacks of `rs` call, in order. */
  function Invocations(rs: seq<Callback>): seq<ListenerId>
  {
    seq(|rs|, i requires 0 <= i < |rs| => Invokes(rs[i]))
  }

  /** The listeners the `once` wrappers of `cbs` wrap, in order. */
  function Wrapped(cbs: seq<Callback>): seq<ListenerId>
    decreases |cbs|
  {
    if cbs == [] then []
    else Wrapped(cbs[..|cbs| - 1]) + (if cbs[|cbs| - 1].Wrapper? then [cbs[|cbs| - 1].listener] else [])
  }

  /** The listeners a list calls are those of its `on` entries together with
      those its wrappers wrap. */
  lemma {:induction false} CallsSplit(cbs: seq<Callback>)
    ensures multiset(Invocations(cbs)) == multiset(Invocations(Plains(cbs))) + multiset(Wrapped(cbs))
    decreases |cbs|
  {
    if cbs != [] {
      var init := cbs[..|cbs| - 1];
      var last := cbs[|cbs| - 1];
      CallsSplit(init);
      assert cbs == init + [last];
      assert Invocations(cbs) == Invocations(init) + [Invokes(last)];
      if last.Fn? {
        assert Invocations(Plains(cbs)) == Invocations(Plains(init)) + [Invokes(last)];
      } else {
        assert Plains(cbs) == Plains(init);
      }
    }
  }

  /** Removing the last entry that calls `l`, when there is one, takes one
      call of `l` away and nothing else. */
  lemma RemoveOneCall(rs: seq<Callback>, l: ListenerId)
    requires l in multiset(Invocations(rs))
    ensures |RemoveLast(rs, Fn(l))| == |rs| - 1
    ensures multiset(Invocations(RemoveLast(rs, Fn(l)))) == multiset(Invocations(rs)) - multiset{l}
  {
    var calls := Invocations(rs);
    assert LastMatch(rs, Fn(l)).Some? by {
      assert l in calls;
      var j :| 0 <= j < |calls| && calls[j] == l;
      assert Matches(rs[j], Fn(l));
    }
    var i := LastMatch(rs, Fn(l)).value;
    assert calls[i] == l;
    assert RemoveLast(rs, Fn(l)) == rs[..i] + rs[i + 1..];
    InvocationsSplice(rs, i);
    SpliceMultiset(calls, i);
  }

  /** The calls of a list with entry `i` spliced out. */
  lemma InvocationsSplice(rs: seq<Callback>, i: nat)
    requires i < |rs|
    ensures Invocations(rs[..i] + rs[i + 1..]) == Invocations(rs)[..i] + Invocations(rs)[i + 1..]
  {
  }

  lemma SpliceMultiset(xs: seq<ListenerId>, i: nat)
    requires i < |xs|
    ensures multiset(xs[..i] + xs[i + 1..]) == multiset(xs) - multiset{xs[i]}
  {
    assert xs == xs[..i] + [xs[i]] + xs[i + 1..];
  }

  /** The as-written emit over its first `p` callbacks: every wrapper finds an
      entry calling its listener, so each one takes exactly one call of that
      listener away. */
  lemma {:induction false} FireAsWrittenPrefix(events: map<string, seq<Callback>>, name: string, p: nat)
    requires name in events && p <= |events[name]|
    ensures |Get(Fire(events, name, events[name][..p], false), name)| == |events[name]| - |Wrapped(events[name][..p])|
    ensures multiset(Invocations(Get(Fire(events, name, events[name][..p], false), name)))
         == multiset(Invocations(events[name])) - multiset(Wrapped(events[name][..p]))
  {
    var cbs := events[name];
    if p == 0 {
      assert cbs[..0] == [];
    } else {
      FireAsWrittenPrefix(events, name, p - 1);
      FireAsWrittenOneMore(events, name, cbs, p);
    }
  }

  /** The inductive step of `FireAsWrittenPrefix`. */
  lemma FireAsWrittenOneMore(events: map<string, seq<Callback>>, name: string, cbs: seq<Callback>, p: nat)
    requires 0 < p <= |cbs|
    requires |Get(Fire(events, name, cbs[..p - 1], false), name)| == |cbs| - |Wrapped(cbs[..p - 1])|
    requires multiset(Invocations(Get(Fire(events, name, cbs[..p - 1], false), name)))
          == multiset(Invocations(cbs)) - multiset(Wrapped(cbs[..p - 1]))
    ensures |Get(Fire(events, name, cbs[..p], false), name)| == |cbs| - |Wrapped(cbs[..p])|
    ensures multiset(Invocations(Get(Fire(events, name, cbs[..p], false), name)))
         == multiset(Invocations(cbs)) - multiset(Wrapped(cbs[..p]))
  {
    var q := p - 1;
    var before := Fire(events, name, cbs[..q], false);
    FirePrefixStep(events, name, cbs, p, false);
    WrappedPrefixStep(cbs, p);
    if cbs[q].Wrapper? {
      var l := cbs[q].listener;
      assert Fire(events, name, cbs[..p], false) == Removed(before, name, Fn(l));
      GetRemoved(before, name, Fn(l));
      CallsWithin(cbs, p);
      RemoveWrapped(Get(before, name), multiset(Invocations(cbs)), Wrapped(cbs[..q]), l, |cbs|);
    }
  }

  /** The list of `name` after a removal is the old list with its last match
      spliced out. */
  lemma GetRemoved(events: map<string, seq<Callback>>, name: string, target: Callback)
    ensures Get(Removed(events, name, target), name) == RemoveLast(Get(events, name), target)
  {
  }

  /** A wrapper of `l` fires on a list whose calls are `all` less the calls
      `wrapped` already took away, and `all` still covers them and `l`. */
  lemma RemoveWrapped(rs: seq<Callback>, all: multiset<ListenerId>, wrapped: seq<ListenerId>, l: ListenerId, n: int)
    requires |rs| == n - |wrapped| && multiset(Invocations(rs)) == all - multiset(wrapped)
    requires multiset(wrapped + [l]) <= all
    ensures |RemoveLast(rs, Fn(l))| == n - |wrapped + [l]|
    ensures multiset(Invocations(RemoveLast(rs, Fn(l)))) == all - multiset(wrapped + [l])
  {
    var w := multiset(wrapped);
    assert multiset(wrapped + [l]) == w + multiset{l};
    assert w[l] + 1 <= all[l];
    assert l in multiset(Invocations(rs));
    RemoveOneCall(rs, l);
    assert (all - w) - multiset{l} == all - (w + multiset{l});
  }

  /** `Wrapped` over one more callback. */
  lemma WrappedPrefixStep(cbs: seq<Callback>, p: nat)
    requires 0 < p <= |cbs|
    ensures Wrapped(cbs[..p]) == Wrapped(cbs[..p - 1]) + (if cbs[p - 1].Wrapper? then [cbs[p - 1].listener] else [])
  {
    assert cbs[..p][..p - 1] == cbs[..p - 1];
  }

  /** The wrappers among the first `p` callbacks wrap listeners the whole
      list calls. */
  lemma CallsWithin(cbs: seq<Callback>, p: nat)
    requires p <= |cbs|
    ensures multiset(Wrapped(cbs[..p])) <= multiset(Invocations(cbs))
  {
    CallsSplit(cbs[..p]);
    assert Invocations(cbs) == Invocations(cbs[..p]) + Invocations(cbs[p..]);
  }

  /** As written, an emit leaves entries that call exactly the `on` listeners
      of the event, counted with multiplicity, though not necessarily the
      entries `on` registered: a wrapper can stay where an `on` registration
      of its listener was removed. */
  lemma FireAsWritten(events: map<string, seq<Callback>>, name: string)
    requires name in events
    ensures |Get(Fire(events, name, events[name], false), name)| == |Plains(events[name])|
    ensures multiset(Invocations(Get(Fire(events, name, events[name], false), name)))
         == multiset(Invocations(Plains(events[name])))
  {
    var cbs := events[name];
    FireAsWrittenPrefix(events, name, |cbs|);
    assert cbs[..|cbs|] == cbs;
    CallsSplit(cbs);
    assert |multiset(Invocations(Plains(cbs)))| == |Plains(cbs)|;
  }

  class EventEmitter {
    var events: map<string, seq<Callback>>
    /** How many wrappers `once` has made: the identity of the next one. */
    var nextWrapper: nat

    ghost predicate Valid()
      reads this
    {
      WellFormed(events, nextWrapper)
    }

    /** `cb` is not a wrapper already made and stored. */
    ghost predicate FreshCallback(cb: Callback)
      reads this
    {
      cb.Wrapper? ==>
        && cb.wrap < nextWrapper
        && forall name, i :: name in events && 0 <= i < |events[name]| && events[name][i].Wrapper? ==>
             events[name][i].wrap != cb.wrap
    }

    constructor()
      ensures Valid() && events == map[] && nextWrapper == 0
    {
      events := map[];
      nextWrapper := 0;
    }

    method AddListener(name: string, cb: Callback)
      requires Valid() && FreshCallback(cb)
      modifies this
      ensures Valid() && nextWrapper == old(nextWrapper)
      ensures events == Added(old(events), name, cb)
      ensures ListenerCount(name) == old(ListenerCount(name)) + 1
    {
      if name !in events {
        events := events[name := []];
      }
      events := events[name := events[name] + [cb]];
    }

    method On(name: string, l: ListenerId)
      requires Valid()
      modifies this
      ensures Valid() && nextWrapper == old(nextWrapper)
      ensures events == Added(old(events), name, Fn(l))
    {
      AddListener(name, Fn(l));
    }

    method RemoveListener(name: string, target: Callback)
      requires Valid()
      modifies this
      ensures Valid() && nextWrapper == old(nextWrapper)
      ensures events == Removed(old(events), name, target)
    {
      RemovedWellFormed(events, name, target, nextWrapper);
      if name in events {
        var arr := events[name];
        ghost var original := arr;
        var i := |arr| - 1;
        while i >= 0
          invariant -1 <= i < |arr| && arr == original
          invariant forall j :: i < j < |arr| ==> !Matches(arr[j], target)
        {
          if Matches(arr[i], target) {
            LastMatchIs(arr, target, i);
            arr := arr[..i] + arr[i + 1..];
            break;
          }
          i := i - 1;
        }
        assert arr == RemoveLast(original, target);
        if |arr| == 0 {
          events := events - {name};
        } else {
          events := events[name := arr];
        }
      }
    }

    method Off(name: string, l: ListenerId)
      requires Valid()
      modifies this
      ensures Valid() && nextWrapper == old(nextWrapper)
      ensures events == Removed(old(events), name, Fn(l))
    {
      RemoveListener(name, Fn(l));
    }

    /** No name, or the empty name, drops every registration; any other name
        drops that event's registrations only. */
    method RemoveAllListeners(name: Option<string>)
      requires Valid()
      modifies this
      ensures Valid() && nextWrapper == old(nextWrapper)
      ensures name.None? || name.value == "" ==> events == map[]
      ensures name.Some? && name.value != "" ==>
        events == old(events) - {name.value} && ListenerCount(name.value) == 0
    {
      if name.None? || name.value == "" {
        events := map[];
        return;
      }
      events := events - {name.value};
    }

    /** Registers a fresh wrapper around `l`: one emit of `name` calls `l`
        once and unregisters. */
    method Once(name: string, l: ListenerId)
      requires Valid()
      modifies this
      ensures Valid() && nextWrapper == old(nextWrapper) + 1
      ensures events == Added(old(events), name, Wrapper(old(nextWrapper), l))
    {
      var wrapper := Wrapper(nextWrapper, l);
      nextWrapper := nextWrapper + 1;
      AddListener(name, wrapper);
    }

    /** Calls every callback registered for `name` when the emit starts, in
        order, including those an earlier wrapper unregistered; reports
        whether the event had any, and which listeners were called. */
    method Emit(name: string) returns (had: bool, calls: seq<ListenerId>)
      requires Valid()
      modifies this
      ensures Valid() && nextWrapper == old(nextWrapper)
      ensures had == (name in old(events))
      ensures !had ==> events == old(events) && calls == []
      ensures had ==> events == Fire(old(events), name, old(events)[name], false)
      ensures had ==> ListenerCount(name) == |Plains(old(events)[name])|
      ensures had ==> multiset(Invocations(Get(events, name))) == multiset(Invocations(Plains(old(events)[name])))
      ensures had ==> |calls| == |old(events)[name]|
      ensures had ==> forall j :: 0 <= j < |calls| ==> calls[j] == Invokes(old(events)[name][j])
    {
      if name !in events {
        return false, [];
      }
      calls := CallEach(name, events[name]);
      FireAsWritten(old(events), name);
      return true, calls;
    }

    /** The loop of `emit`: calls each callback of the copy taken when the
        emit began, a wrapper first removing the last registration matching
        its listener. */
    method CallEach(name: string, callbacks: seq<Callback>) returns (calls: seq<ListenerId>)
      requires Valid()
      modifies this
      ensures Valid() && nextWrapper == old(nextWrapper)
      ensures events == Fire(old(events), name, callbacks, false)
      ensures |calls| == |callbacks| && forall j :: 0 <= j < |calls| ==> calls[j] == Invokes(callbacks[j])
    {
      calls := [];
      var i := 0;
      while i < |callbacks|
        invariant 0 <= i <= |callbacks|
        invariant Valid() && nextWrapper == old(nextWrapper)
        invariant events == Fire(old(events), name, callbacks[..i], false)
        invariant |calls| == i && forall j :: 0 <= j < i ==> calls[j] == Invokes(callbacks[j])
      {
        var cb := callbacks[i];
        assert callbacks[..i + 1][..i] == callbacks[..i];
        if cb.Wrapper? {
          RemoveListener(name, Fn(cb.listener));
        }
        calls := calls + [Invokes(cb)];
        i := i + 1;
      }
      assert callbacks[..i] == callbacks;
    }

    /** `Emit` with each wrapper unregistering itself rather than the last
        registration of its listener. */
    method EmitSelfRemoving(name: string) returns (had: bool, calls: seq<ListenerId>)
      requires Valid()
      modifies this
      ensures Valid() && nextWrapper == old(nextWrapper)
      ensures had == (name in old(events))
      ensures !had ==> events == old(events) && calls == []
      ensures had ==> events == Put(old(events), name, Plains(old(events)[name]))
      ensures had ==> |calls| == |old(events)[name]|
      ensures had ==> forall j :: 0 <= j < |calls| ==> calls[j] == Invokes(old(events)[name][j])
    {
      if name !in events {
        return false, [];
      }
      var callbacks := events[name];
      calls := [];
      var i := 0;
      while i < |callbacks|
        invariant 0 <= i <= |callbacks|
        invariant Valid() && nextWrapper == old(nextWrapper)
        invariant events == Fire(old(events), name, callbacks[..i], true)
        invariant |calls| == i && forall j :: 0 <= j < i ==> calls[j] == Invokes(callbacks[j])
      {
        var cb := callbacks[i];
        assert callbacks[..i + 1][..i] == callbacks[..i];
        if cb.Wrapper? {
          RemoveListener(name, cb);
        }
        calls := calls + [Invokes(cb)];
        i := i + 1;
      }
      assert callbacks[..i] == callbacks;
      FireSelfRemoval(old(events), name);
      return true, calls;
    }

    /** The number of callbacks registered for `name`. */
    function ListenerCount(name: string): (n: nat)
      reads this
      ensures n == |Get(events, name)|
      ensures Valid() ==> (n == 0 <==> name !in events)
    {
      if name in events then |events[name]| else 0
    }
  }
}

/** Scenarios of the emitter's behaviour, stated as methods over fresh
    emitters. */
module EmitterScenarios {
  import opened Emitter

  /** A new emitter counts no listeners for any event. */
  method NewEmitterCount() returns (n: nat)
    ensures n == 0
  {
    var e := new EventEmitter();
    n := e.ListenerCount("hello");
  }

  /** Two `once` listeners are both counted, and one emit unregisters both. */
  method OnceTwiceThenEmit() returns (before: nat, had: bool, calls: seq<ListenerId>, after: nat)
    ensures before == 2 && had && calls == [1, 2] && after == 0
  {
    var e := TwoOnce();
    before := e.ListenerCount("hello");
    TwoOnceFire();
    had, calls := e.Emit("hello");
    after := e.ListenerCount("hello");
  }

  /** A new emitter with listeners 1 and 2 registered by `once`. */
  method TwoOnce() returns (e: EventEmitter)
    ensures fresh(e) && e.Valid()
    ensures e.events == map["hello" := [Wrapper(0, 1), Wrapper(1, 2)]]
  {
    e := new EventEmitter();
    assert Get(map[], "hello") == [];
    e.Once("hello", 1);
    assert [] + [Wrapper(0, 1)] == [Wrapper(0, 1)];
    assert e.events == map["hello" := [Wrapper(0, 1)]];
    e.Once("hello", 2);
    assert Get(map["hello" := [Wrapper(0, 1)]], "hello") + [Wrapper(1, 2)] == [Wrapper(0, 1), Wrapper(1, 2)];
  }

  /** Emitting an event holding two `once` wrappers of different listeners
      unregisters both, and with them the event. */
  lemma TwoOnceFire()
    ensures Fire(map["hello" := [Wrapper(0, 1), Wrapper(1, 2)]], "hello", [Wrapper(0, 1), Wrapper(1, 2)], false) == map[]
  {
    var cbs := [Wrapper(0, 1), Wrapper(1, 2)];
    var m := map["hello" := cbs];
    assert cbs[..1] == [Wrapper(0, 1)] && cbs[..1][..0] == [];
    LastMatchIs(cbs, Fn(1), 0);
    assert cbs[..0] + cbs[1..] == [Wrapper(1, 2)];
    assert Fire(m, "hello", cbs[..1], false) == map["hello" := [Wrapper(1, 2)]];
    LastMatchIs([Wrapper(1, 2)], Fn(2), 0);
    assert map["hello" := [Wrapper(1, 2)]] - {"hello"} == map[];
  }

  /** Counts per event after three `on` registrations over two events. */
  method CountsPerEvent() returns (foo: nat, bar: nat, baz: nat, other: nat)
    ensures foo == 2 && bar == 0 && baz == 1 && other == 0
  {
    var e := new EventEmitter();
    e.On("foo", 1);
    e.On("foo", 2);
    e.On("baz", 3);
    foo := e.ListenerCount("foo");
    bar := e.ListenerCount("bar");
    baz := e.ListenerCount("baz");
    other := e.ListenerCount("123");
  }
}
