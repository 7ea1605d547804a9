/** Rounds in which a callback may schedule its own descriptor and also fail: its
    number is then on the to-remove stack twice. */
module DoubleRemovals {
  import opened EventLoops

  /** The k-th callback opens unused descriptors. */
  ghost predicate OfferedCall<C, A>(s: Loop<C, A>, ready: seq<Reg<C, A>>, effects: seq<Effect<C, A>>, k: nat, max: nat)
    requires k < |ready| && k < |effects|
  {
    Unused(Dispatched(s, ready, effects, k, max).open, effects[k].adds)
  }

  /** What the environment may do in one round, whatever callbacks return. */
  ghost predicate Offered<C, A>(s: Loop<C, A>, r: Round<C, A>, max: nat) {
    && |r.revents| == |s.table|
    && var ready := Ready(s.table, r.revents);
       && |r.effects| == |ready|
       && (forall k | 0 <= k < |ready| :: OfferedCall(s, ready, r.effects, k, max))
       && Unused(Dispatched(s, ready, r.effects, |ready|, max).open, r.periodic)
  }

  /** The numbers of the first k ready entries whose callback did both. */
  function Doubled<C, A>(ready: seq<Reg<C, A>>, effects: seq<Effect<C, A>>, k: nat): set<int>
    requires k <= |ready| && k <= |effects|
  {
    set i | 0 <= i < k && effects[i].schedulesOwn && effects[i].fails :: ready[i].fd
  }

  /** The same callbacks, each scheduling at most once. */
  function Once<C, A>(effects: seq<Effect<C, A>>): (r: seq<Effect<C, A>>)
    ensures |r| == |effects|
    ensures forall i | 0 <= i < |r| ::
              r[i] == effects[i].(schedulesOwn := effects[i].schedulesOwn && !effects[i].fails)
  {
    seq(|effects|, i requires 0 <= i < |effects| =>
      effects[i].(schedulesOwn := effects[i].schedulesOwn && !effects[i].fails))
  }

  function OnceEach<C, A>(r: Round<C, A>): Round<C, A> {
    r.(effects := Once(r.effects))
  }

  // ----- With and without the second scheduling

  lemma {:induction false} SameDispatch<C, A>(s: Loop<C, A>, ready: seq<Reg<C, A>>, effects: seq<Effect<C, A>>,
                                        k: nat, max: nat)
    requires k <= |ready| && k <= |effects|
    ensures var d, d' := Dispatched(s, ready, effects, k, max), Dispatched(s, ready, Once(effects), k, max);
            d.table == d'.table && d.open == d'.open
    ensures Added(s, ready, effects, k, max) == Added(s, ready, Once(effects), k, max)
  {
    hide AddAll, Taken, Fds;
    if k > 0 {
      SameDispatch(s, ready, effects, k - 1, max);
    }
  }

  /** One call more: its number is new among the doubled. */
  lemma {:induction false} DoubledSnoc<C, A>(ready: seq<Reg<C, A>>, effects: seq<Effect<C, A>>, k: nat)
    requires 0 < k <= |ready| && k <= |effects| && Distinct(ready)
    ensures var before, e := Doubled(ready, effects, k - 1), effects[k - 1];
            && ready[k - 1].fd !in before
            && Doubled(ready, effects, k) == if e.schedulesOwn && e.fails then before + {ready[k - 1].fd} else before
  {
  }

  lemma {:induction false} OneMoreNumber(s: set<int>, f: int)
    requires f !in s
    ensures multiset(s + {f}) == multiset(s) + multiset{f}
  {
  }

  lemma {:induction false} CalledStacks<C, A>(d: Loop<C, A>, d': Loop<C, A>, x: Reg<C, A>,
                                        e: Effect<C, A>, e': Effect<C, A>, max: nat)
    requires e' == e.(schedulesOwn := e.schedulesOwn && !e.fails)
    ensures multiset(Called(d, x, e, max).toRemove) == multiset(d.toRemove) +
            (if e.schedulesOwn && e.fails then multiset{x.fd, x.fd}
             else if e.schedulesOwn || e.fails then multiset{x.fd} else multiset{})
    ensures multiset(Called(d', x, e', max).toRemove) == multiset(d'.toRemove) +
            (if e.schedulesOwn || e.fails then multiset{x.fd} else multiset{})
  {
  }

  lemma {:induction false} NoneDoubled<C, A>(ready: seq<Reg<C, A>>, effects: seq<Effect<C, A>>)
    ensures Doubled(ready, effects, 0) == {}
  {
  }

  /** The stack holds each doubled number once more. */
  lemma {:induction false} StackTwice<C, A>(s: Loop<C, A>, ready: seq<Reg<C, A>>, effects: seq<Effect<C, A>>,
                                      k: nat, max: nat)
    requires k <= |ready| && k <= |effects| && Distinct(ready)
    ensures multiset(Dispatched(s, ready, effects, k, max).toRemove) ==
            multiset(Dispatched(s, ready, Once(effects), k, max).toRemove) + multiset(Doubled(ready, effects, k))
  {
    hide Doubled, Called, Once, Distinct;
    if k == 0 {
      NoneDoubled(ready, effects);
    } else {
      hide Dispatched;
      StackTwice(s, ready, effects, k - 1, max);
      DoubledSnoc(ready, effects, k);
      var d, d' := Dispatched(s, ready, effects, k - 1, max), Dispatched(s, ready, Once(effects), k - 1, max);
      CalledStacks(d, d', ready[k - 1], effects[k - 1], Once(effects)[k - 1], max);
      if effects[k - 1].schedulesOwn && effects[k - 1].fails {
        OneMoreNumber(Doubled(ready, effects, k - 1), ready[k - 1].fd);
      }
    }
  }

  lemma {:induction false} OfferedIsLawful<C, A>(s: Loop<C, A>, r: Round<C, A>, max: nat)
    requires Offered(s, r, max)
    ensures Lawful(s, OnceEach(r), max)
  {
    var ready := Ready(s.table, r.revents);
    hide Ready, Dispatched, Unused;
    forall k | 0 <= k < |ready| ensures LawfulCall(s, ready, Once(r.effects), k, max) {
      assert OfferedCall(s, ready, r.effects, k, max);
      SameDispatch(s, ready, r.effects, k, max);
    }
    SameDispatch(s, ready, r.effects, |ready|, max);
  }

  // ----- The drain

  lemma {:induction false} RemoveFromNew<C, A>(old_: seq<Reg<C, A>>, new_: seq<Reg<C, A>>, fd: int)
    requires fd !in Fds(old_) && Distinct(new_)
    ensures RemoveFirst(old_ + new_, fd) == old_ + Without(new_, {fd})
    decreases |old_|
  {
    hide RemoveFirst, Fds;
    if old_ == [] {
      assert old_ + new_ == new_;
      RemoveIsWithout(new_, fd);
      assert old_ + Without(new_, {fd}) == Without(new_, {fd});
    } else {
      assert old_ == [old_[0]] + old_[1..];
      FdsCons(old_[0], old_[1..]);
      RemoveFromNew(old_[1..], new_, fd);
      assert old_ + new_ == [old_[0]] + (old_[1..] + new_);
      RemoveFdCons(old_[0], old_[1..] + new_, fd);
      assert [old_[0]] + (old_[1..] + Without(new_, {fd})) == old_ + Without(new_, {fd});
    }
  }

  lemma {:induction false} LessOne(a: multiset<int>, b: multiset<int>, f: int)
    requires a + multiset{f} == b + multiset{f}
    ensures a == b
  {
    forall x ensures a[x] == b[x] {
      assert (a + multiset{f})[x] == (b + multiset{f})[x];
    }
  }

  /** Without the number at the top of the stack. */
  lemma {:induction false} PopNumber(stack: seq<int>, once: set<int>, twice: set<int>)
    requires stack != [] && multiset(stack) == multiset(once) + multiset(twice)
    ensures var fd, init := stack[|stack| - 1], stack[..|stack| - 1];
            && (fd in once || fd in twice)
            && (fd in once ==> multiset(init) == multiset(once - {fd}) + multiset(twice))
            && (fd !in once ==> multiset(init) == multiset(once) + multiset(twice - {fd}))
  {
    var fd, init := stack[|stack| - 1], stack[..|stack| - 1];
    assert stack == init + [fd];
    assert multiset(stack) == multiset(init) + multiset{fd};
    assert fd in multiset(once) || fd in multiset(twice) by {
      assert fd in multiset(once) + multiset(twice);
    }
    if fd in once {
      assert once == once - {fd} + {fd};
      OneMoreNumber(once - {fd}, fd);
      LessOne(multiset(init), multiset(once - {fd}) + multiset(twice), fd);
    } else {
      assert twice == twice - {fd} + {fd};
      OneMoreNumber(twice - {fd}, fd);
      LessOne(multiset(init), multiset(once) + multiset(twice - {fd}), fd);
    }
  }

  /** The drain takes the scheduled numbers out of the old entries, and those on
      the stack a second time out of the new ones. */
  lemma {:induction false} DrainTakesBoth<C, A>(old_: seq<Reg<C, A>>, new_: seq<Reg<C, A>>, stack: seq<int>,
                                          once: set<int>, twice: set<int>)
    requires Distinct(old_) && Distinct(new_)
    requires multiset(stack) == multiset(once) + multiset(twice)
    requires once <= Fds(old_) && twice !! (Fds(old_) - once)
    ensures Drained(old_ + new_, stack) == Without(old_, once) + Without(new_, twice)
    decreases |stack|
  {
    hide Without, RemoveFirst, Fds, Distinct;
    if stack == [] {
      NothingScheduled(once, twice);
      WithoutNothing(old_);
      WithoutNothing(new_);
    } else {
      var fd, init := stack[|stack| - 1], stack[..|stack| - 1];
      PopNumber(stack, once, twice);
      if fd in once {
        FirstMatchConcat(old_, new_, fd);
        RemoveIsWithout(old_, fd);
        WithoutFds(old_, {fd});
        DrainTakesBoth(Without(old_, {fd}), new_, init, once - {fd}, twice);
        WithoutTwice(old_, {fd}, once - {fd});
        assert {fd} + (once - {fd}) == once;
      } else {
        RemoveFromNew(old_, new_, fd);
        WithoutFds(new_, {fd});
        DrainTakesBoth(old_, Without(new_, {fd}), init, once, twice - {fd});
        WithoutTwice(new_, {fd}, twice - {fd});
        assert {fd} + (twice - {fd}) == twice;
      }
    }
  }

  lemma {:induction false} NothingScheduled(once: set<int>, twice: set<int>)
    requires multiset([]) == multiset(once) + multiset(twice)
    ensures once == {} && twice == {}
  {
    forall f ensures f !in once && f !in twice {
      assert (multiset(once) + multiset(twice))[f] == 0;
    }
  }

  lemma {:induction false} WithoutNothing<C, A>(t: seq<Reg<C, A>>)
    ensures Without(t, {}) == t
  {
    WithoutAbsent(t, {});
  }

  // ----- Every round

  lemma {:induction false} NumbersAsSet(stack: seq<int>)
    requires NoRepeat(stack)
    ensures multiset(stack) == multiset(Numbers(stack))
    decreases |stack|
  {
    if stack == [] {
      assert Numbers(stack) == {};
    } else {
      var init, fd := stack[..|stack| - 1], stack[|stack| - 1];
      assert stack == init + [fd];
      NumbersAsSet(init);
      assert Numbers(stack) == Numbers(init) + {fd};
      OneMoreNumber(Numbers(init), fd);
    }
  }

  /** Both rounds before the drain. */
  lemma {:induction false} BeforeBothDrains<C, A>(s: Loop<C, A>, r: Round<C, A>, max: nat)
    requires Settled(s) && Offered(s, r, max)
    ensures var ready := Ready(s.table, r.revents);
            var b, new_ := BeforeDrain(s, r, max), AddedInRound(s, r, max);
            var once, twice := Dropped(ready, r.effects, |ready|), Doubled(ready, r.effects, |ready|);
            && b.table == s.table + new_ && Distinct(new_) && once <= Fds(s.table)
            && multiset(b.toRemove) == multiset(once) + multiset(twice)
  {
    OfferedIsLawful(s, r, max);
    UnderwayBeforeDrain(s, OnceEach(r), max);
    ReadyInTable(s.table, r.revents);
    var ready := Ready(s.table, r.revents);
    hide Ready, Dispatched, Added, Dropped, Fds, Lawful, Offered, Numbers;
    SameDispatch(s, ready, r.effects, |ready|, max);
    StackTwice(s, ready, r.effects, |ready|, max);
    NumbersAsSet(BeforeDrain(s, OnceEach(r), max).toRemove);
  }

  /** One iteration, whatever its callbacks do: the old entries minus those dropped
      or scheduled, followed by the entries added minus those whose number some
      callback both scheduled and dropped. */
  lemma {:induction false} IterationInGeneral<C, A>(s: Loop<C, A>, r: Round<C, A>, max: nat)
    requires Settled(s) && Offered(s, r, max)
    ensures var ready := Ready(s.table, r.revents);
            Iterated(s, r, max).table ==
            Without(s.table, Dropped(ready, r.effects, |ready|)) +
            Without(AddedInRound(s, r, max), Doubled(ready, r.effects, |ready|))
  {
    var ready := Ready(s.table, r.revents);
    BeforeBothDrains(s, r, max);
    hide Offered, Ready, Dropped, Doubled, BeforeDrain, AddedInRound, Without, Drained, Distinct;
    DrainTakesBoth(s.table, AddedInRound(s, r, max), BeforeDrain(s, r, max).toRemove,
                   Dropped(ready, r.effects, |ready|), Doubled(ready, r.effects, |ready|));
  }

  lemma {:induction false} WithoutSomeIff<C, A>(t: seq<Reg<C, A>>, fds: set<int>)
    ensures Without(t, fds) == t <==> fds !! Fds(t)
  {
    if fds !! Fds(t) {
      WithoutAbsent(t, fds);
    } else {
      var f :| f in fds && f in Fds(t);
      var i :| 0 <= i < |t| && t[i].fd == f;
      assert t[i] in t;
    }
  }

  /** A fresh registration is lost, and the iteration is not the exact one, if and
      only if the number of a callback that did both was registered again. */
  lemma {:induction false} FreshIsLostIff<C, A>(s: Loop<C, A>, r: Round<C, A>, max: nat)
    requires Settled(s) && Offered(s, r, max)
    ensures var ready := Ready(s.table, r.revents);
            Iterated(s, r, max).table == Without(s.table, Dropped(ready, r.effects, |ready|)) + AddedInRound(s, r, max)
            <==> Doubled(ready, r.effects, |ready|) !! Fds(AddedInRound(s, r, max))
  {
    IterationInGeneral(s, r, max);
    hide Iterated, Offered, Ready, Dropped, Doubled, AddedInRound, Without, Fds, Settled;
    var ready, new_ := Ready(s.table, r.revents), AddedInRound(s, r, max);
    WithoutSomeIff(new_, Doubled(ready, r.effects, |ready|));
    SameFront(Without(s.table, Dropped(ready, r.effects, |ready|)),
              Without(new_, Doubled(ready, r.effects, |ready|)), new_);
  }
}
