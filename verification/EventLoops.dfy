/** The descriptor loop. A descriptor that a callback drops is closed at once
    but stays registered until the end of the iteration, so its number may be
    handed out again, and registered again, before the drain. */
module EventLoops {

  /** One registration: the three parallel arrays at one index. */
  datatype Reg<C, A> = Reg(fd: int, events: int, callback: C, arg: A)

  /** What one callback did: descriptors it opened and registered, whether it
      scheduled its own for removal, whether it returned a negative number. */
  datatype Effect<C, A> = Effect(adds: seq<Reg<C, A>>, schedulesOwn: bool, fails: bool)

  /** The loop's registrations and to-remove stack, and the system's open
      descriptors. */
  datatype Loop<C, A> = Loop(table: seq<Reg<C, A>>, toRemove: seq<int>, open: set<int>)

  function Fds<C, A>(t: seq<Reg<C, A>>): (s: set<int>)
    ensures forall f :: f in s <==> exists i | 0 <= i < |t| :: t[i].fd == f
  {
    set i | 0 <= i < |t| :: t[i].fd
  }

  ghost predicate Distinct<C, A>(t: seq<Reg<C, A>>) {
    forall i, j | 0 <= i < j < |t| :: t[i].fd != t[j].fd
  }

  /** At an iteration boundary. */
  ghost predicate Settled<C, A>(s: Loop<C, A>) {
    Distinct(s.table) && Fds(s.table) <= s.open && s.toRemove == []
  }

  // ----- The operations

  /** `event_loop_add_fd`, repeated: a full table takes no more. */
  function AddAll<C, A>(t: seq<Reg<C, A>>, adds: seq<Reg<C, A>>, max: nat): seq<Reg<C, A>> {
    if |t| + |adds| <= max then t + adds
    else if |t| <= max then t + adds[..max - |t|]
    else t
  }

  function FirstMatch<C, A>(t: seq<Reg<C, A>>, fd: int): (i: nat)
    ensures i <= |t|
    ensures forall j | 0 <= j < i :: t[j].fd != fd
    ensures i < |t| ==> t[i].fd == fd
  {
    if t == [] || t[0].fd == fd then 0 else 1 + FirstMatch(t[1..], fd)
  }

  /** `event_loop_remove_fd` */
  function RemoveFirst<C, A>(t: seq<Reg<C, A>>, fd: int): seq<Reg<C, A>> {
    var i := FirstMatch(t, fd);
    if i < |t| then t[..i] + t[i + 1..] else t
  }

  /** The drain: the last scheduled number goes first. */
  function Drained<C, A>(t: seq<Reg<C, A>>, toRemove: seq<int>): seq<Reg<C, A>> {
    if toRemove == [] then t
    else Drained(RemoveFirst(t, toRemove[|toRemove| - 1]), toRemove[..|toRemove| - 1])
  }

  /** One callback was called for r. */
  function Called<C, A>(s: Loop<C, A>, r: Reg<C, A>, e: Effect<C, A>, max: nat): Loop<C, A> {
    var open := s.open + Fds(e.adds);
    var stack := if e.schedulesOwn then s.toRemove + [r.fd] else s.toRemove;
    if e.fails
    then Loop(AddAll(s.table, e.adds, max), stack + [r.fd], open - {r.fd})
    else Loop(AddAll(s.table, e.adds, max), stack, open)
  }

  /** The entries whose revents are set, in table order. */
  function Ready<C, A>(t: seq<Reg<C, A>>, revents: seq<int>): (r: seq<Reg<C, A>>)
    requires |t| == |revents|
    ensures |r| <= |t|
  {
    if t == [] then []
    else
      var n := |t| - 1;
      var r := Ready(t[..n], revents[..n]);
      if revents[n] != 0 then r + [t[n]] else r
  }

  /** The state after the first k callbacks. */
  function Dispatched<C, A>(s: Loop<C, A>, ready: seq<Reg<C, A>>, effects: seq<Effect<C, A>>, k: nat, max: nat)
    : Loop<C, A>
    requires k <= |ready| && k <= |effects|
  {
    if k == 0 then s
    else Called(Dispatched(s, ready, effects, k - 1, max), ready[k - 1], effects[k - 1], max)
  }

  /** The system hands out only numbers that are not open. */
  ghost predicate Unused<C, A>(open: set<int>, adds: seq<Reg<C, A>>) {
    Distinct(adds) && Fds(adds) !! open
  }

  /** One iteration of the loop: what poll reported, what each callback did, what the
      periodic tasks opened and registered. */
  datatype Round<C, A> = Round(revents: seq<int>, effects: seq<Effect<C, A>>, periodic: seq<Reg<C, A>>)

  /** The k-th callback opens unused descriptors, schedules at most its own and
      never also fails. */
  ghost predicate LawfulCall<C, A>(s: Loop<C, A>, ready: seq<Reg<C, A>>, effects: seq<Effect<C, A>>, k: nat, max: nat)
    requires k < |ready| && k < |effects|
  {
    && Unused(Dispatched(s, ready, effects, k, max).open, effects[k].adds)
    && !(effects[k].schedulesOwn && effects[k].fails)
  }

  /** What the environment may do in one round. */
  ghost predicate Lawful<C, A>(s: Loop<C, A>, r: Round<C, A>, max: nat) {
    && |r.revents| == |s.table|
    && var ready := Ready(s.table, r.revents);
       && |r.effects| == |ready|
       && (forall k | 0 <= k < |ready| :: LawfulCall(s, ready, r.effects, k, max))
       && Unused(Dispatched(s, ready, r.effects, |ready|, max).open, r.periodic)
  }

  function BeforeDrain<C, A>(s: Loop<C, A>, r: Round<C, A>, max: nat): Loop<C, A>
    requires |r.revents| == |s.table| && |r.effects| == |Ready(s.table, r.revents)|
  {
    var ready := Ready(s.table, r.revents);
    var d := Dispatched(s, ready, r.effects, |ready|, max);
    Loop(AddAll(d.table, r.periodic, max), d.toRemove, d.open + Fds(r.periodic))
  }

  function Iterated<C, A>(s: Loop<C, A>, r: Round<C, A>, max: nat): Loop<C, A>
    requires |r.revents| == |s.table| && |r.effects| == |Ready(s.table, r.revents)|
  {
    var d := BeforeDrain(s, r, max);
    Loop(Drained(d.table, d.toRemove), [], d.open)
  }

  function Numbers(stack: seq<int>): set<int> {
    set f | f in stack
  }

  /** The numbers of the first k ready entries that their callback dropped or scheduled. */
  function Dropped<C, A>(ready: seq<Reg<C, A>>, effects: seq<Effect<C, A>>, k: nat): set<int>
    requires k <= |ready| && k <= |effects|
  {
    set i | 0 <= i < k && (effects[i].schedulesOwn || effects[i].fails) :: ready[i].fd
  }

  /** What the first k callbacks registered. */
  function Added<C, A>(s: Loop<C, A>, ready: seq<Reg<C, A>>, effects: seq<Effect<C, A>>, k: nat, max: nat)
    : seq<Reg<C, A>>
    requires k <= |ready| && k <= |effects|
  {
    if k == 0 then []
    else
      var adds := effects[k - 1].adds;
      Added(s, ready, effects, k - 1, max) + adds[..Taken(Dispatched(s, ready, effects, k - 1, max).table, adds, max)]
  }

  /** What the whole round registered. */
  function AddedInRound<C, A>(s: Loop<C, A>, r: Round<C, A>, max: nat): seq<Reg<C, A>>
    requires |r.revents| == |s.table| && |r.effects| == |Ready(s.table, r.revents)|
  {
    var ready := Ready(s.table, r.revents);
    Added(s, ready, r.effects, |ready|, max)
    + r.periodic[..Taken(Dispatched(s, ready, r.effects, |ready|, max).table, r.periodic, max)]
  }

  /** Without the entries of these numbers, in order. */
  function Without<C, A>(t: seq<Reg<C, A>>, fds: set<int>): (r: seq<Reg<C, A>>)
    ensures |r| <= |t|
    ensures forall x | x in r :: x in t && x.fd !in fds
  {
    if t == [] then []
    else if t[0].fd in fds then Without(t[1..], fds)
    else [t[0]] + Without(t[1..], fds)
  }

  // ----- During one iteration

  ghost predicate NoRepeat(stack: seq<int>) {
    forall i, j | 0 <= i < j < |stack| :: stack[i] != stack[j]
  }

  /** Between callbacks: the old entries, still all there, followed by the new;
      every scheduled number is an old entry's, none twice; a new entry shares
      its number only with a scheduled one. */
  ghost predicate Underway<C, A>(old_: seq<Reg<C, A>>, new_: seq<Reg<C, A>>, s: Loop<C, A>) {
    && s.table == old_ + new_
    && Distinct(new_) && Fds(new_) <= s.open
    && NoRepeat(s.toRemove) && Numbers(s.toRemove) <= Fds(old_)
    && Fds(old_) - Numbers(s.toRemove) <= s.open
    && (Fds(old_) - Numbers(s.toRemove)) !! Fds(new_)
  }

  lemma {:induction false} FdsConcat<C, A>(a: seq<Reg<C, A>>, b: seq<Reg<C, A>>)
    ensures Fds(a + b) == Fds(a) + Fds(b)
  {
    forall f | f in Fds(a) + Fds(b) ensures f in Fds(a + b) {
      if f in Fds(a) {
        var i :| 0 <= i < |a| && a[i].fd == f;
        assert (a + b)[i].fd == f;
      } else {
        var i :| 0 <= i < |b| && b[i].fd == f;
        assert (a + b)[|a| + i].fd == f;
      }
    }
  }

  /** How many of the additions a table of this capacity takes. */
  function Taken<C, A>(t: seq<Reg<C, A>>, adds: seq<Reg<C, A>>, max: nat): (k: nat)
    ensures k <= |adds| && AddAll(t, adds, max) == t + adds[..k]
    ensures |t| <= max ==> |AddAll(t, adds, max)| <= max
  {
    assert adds[..|adds|] == adds;
    assert t + adds[..0] == t;
    if |t| + |adds| <= max then |adds| else if |t| <= max then max - |t| else 0
  }

  /** Registering descriptors the system just opened. */
  lemma {:induction false} UnderwayAdd<C, A>(old_: seq<Reg<C, A>>, new_: seq<Reg<C, A>>, s: Loop<C, A>,
                                       adds: seq<Reg<C, A>>, max: nat)
    requires Underway(old_, new_, s) && Unused(s.open, adds)
    ensures Underway(old_, new_ + adds[..Taken(s.table, adds, max)],
                     Loop(AddAll(s.table, adds, max), s.toRemove, s.open + Fds(adds)))
  {
    var taken := adds[..Taken(s.table, adds, max)];
    assert (old_ + new_) + taken == old_ + (new_ + taken);
    assert adds == taken + adds[|taken|..];
    FdsConcat(taken, adds[|taken|..]);
    FdsConcat(new_, taken);
    assert Distinct(new_ + taken) by {
      forall i, j | 0 <= i < j < |new_ + taken| ensures (new_ + taken)[i].fd != (new_ + taken)[j].fd {
        if i < |new_| <= j {
          assert new_[i].fd in Fds(new_) && taken[j - |new_|].fd in Fds(taken);
        }
      }
    }
  }

  /** One callback, of an old entry that is not scheduled yet. */
  lemma {:induction false} UnderwayCall<C, A>(old_: seq<Reg<C, A>>, new_: seq<Reg<C, A>>, s: Loop<C, A>,
                                        r: Reg<C, A>, e: Effect<C, A>, max: nat)
    requires Underway(old_, new_, s) && Unused(s.open, e.adds)
    requires r in old_ && r.fd !in s.toRemove && !(e.schedulesOwn && e.fails)
    ensures Underway(old_, new_ + e.adds[..Taken(s.table, e.adds, max)], Called(s, r, e, max))
    ensures |Called(s, r, e, max).toRemove| <= |s.toRemove| + 1
    ensures Numbers(Called(s, r, e, max).toRemove) <= Numbers(s.toRemove) + {r.fd}
  {
    UnderwayAdd(old_, new_, s, e.adds, max);
    var taken := e.adds[..Taken(s.table, e.adds, max)];
    assert r.fd in Fds(old_);
    assert Fds(new_ + taken) == Fds(new_) + Fds(taken) by { FdsConcat(new_, taken); }
    assert e.adds == taken + e.adds[|taken|..];
    FdsConcat(taken, e.adds[|taken|..]);
    assert r.fd in s.open && r.fd !in Fds(new_ + taken);
    if e.schedulesOwn || e.fails {
      assert Numbers(s.toRemove + [r.fd]) == Numbers(s.toRemove) + {r.fd};
    }
  }

  lemma {:induction false} ReadySubset<C, A>(t: seq<Reg<C, A>>, revents: seq<int>)
    requires |t| == |revents|
    ensures forall x | x in Ready(t, revents) :: x in t
  {
    if t != [] {
      var n := |t| - 1;
      ReadySubset(t[..n], revents[..n]);
    }
  }

  /** The callbacks called are those of the entries reported ready, each once,
      in table order. */
  lemma {:induction false} ReadyInTable<C, A>(t: seq<Reg<C, A>>, revents: seq<int>)
    requires |t| == |revents| && Distinct(t)
    ensures Distinct(Ready(t, revents))
    ensures forall i | 0 <= i < |t| :: t[i] in Ready(t, revents) <==> revents[i] != 0
    ensures forall x | x in Ready(t, revents) :: x in t
  {
    ReadySubset(t, revents);
    if t != [] {
      var n := |t| - 1;
      var t', rv := t[..n], revents[..n];
      var r := Ready(t', rv);
      assert Ready(t, revents) == if revents[n] != 0 then r + [t[n]] else r;
      hide Ready;
      ReadyInTable(t', rv);
      assert forall x | x in t' :: x.fd != t[n].fd;
      forall i | 0 <= i < n ensures t[i] in r <==> revents[i] != 0 {
        assert t'[i] == t[i] && rv[i] == revents[i];
      }
    }
  }

  /** After k callbacks. */
  lemma {:induction false} UnderwayDispatched<C, A>(s: Loop<C, A>, r: Round<C, A>, k: nat, max: nat)
    requires Settled(s) && Lawful(s, r, max) && k <= |Ready(s.table, r.revents)|
    ensures var ready := Ready(s.table, r.revents);
            var d := Dispatched(s, ready, r.effects, k, max);
            && Underway(s.table, Added(s, ready, r.effects, k, max), d)
            && Numbers(d.toRemove) == Dropped(ready, r.effects, k)
            && |d.toRemove| <= k
  {
    var ready := Ready(s.table, r.revents);
    if k == 0 {
      assert s.table + [] == s.table;
      assert Numbers(s.toRemove) == {} == Dropped(ready, r.effects, 0);
    } else {
      LawfulAt(s, r, k - 1, max);
      ReadyFacts(s, r.revents, k - 1);
      UnderwayDispatched(s, r, k - 1, max);
      hide Called, Underway, Settled, Ready, Lawful, Unused, Numbers, Dropped;
      var d, x, e := Dispatched(s, ready, r.effects, k - 1, max), ready[k - 1], r.effects[k - 1];
      DroppedSnoc(ready, r.effects, k);
      UnderwayCall(s.table, Added(s, ready, r.effects, k - 1, max), d, x, e, max);
      StackAfterCall(d, x, e, max);
    }
  }

  lemma {:induction false} LawfulAt<C, A>(s: Loop<C, A>, r: Round<C, A>, k: nat, max: nat)
    requires Lawful(s, r, max) && k < |Ready(s.table, r.revents)|
    ensures Unused(Dispatched(s, Ready(s.table, r.revents), r.effects, k, max).open, r.effects[k].adds)
    ensures !(r.effects[k].schedulesOwn && r.effects[k].fails)
  {
    assert LawfulCall(s, Ready(s.table, r.revents), r.effects, k, max);
  }

  lemma {:induction false} ReadyFacts<C, A>(s: Loop<C, A>, revents: seq<int>, k: nat)
    requires Settled(s) && |revents| == |s.table| && k < |Ready(s.table, revents)|
    ensures Distinct(Ready(s.table, revents)) && Ready(s.table, revents)[k] in s.table
  {
    ReadyInTable(s.table, revents);
    assert Ready(s.table, revents)[k] in Ready(s.table, revents);
  }

  lemma {:induction false} DroppedSnoc<C, A>(ready: seq<Reg<C, A>>, effects: seq<Effect<C, A>>, k: nat)
    requires 0 < k <= |ready| && k <= |effects| && Distinct(ready)
    ensures var before, e := Dropped(ready, effects, k - 1), effects[k - 1];
            && ready[k - 1].fd !in before
            && Dropped(ready, effects, k) == if e.schedulesOwn || e.fails then before + {ready[k - 1].fd} else before
  {
  }

  lemma {:induction false} StackAfterCall<C, A>(d: Loop<C, A>, x: Reg<C, A>, e: Effect<C, A>, max: nat)
    ensures Numbers(Called(d, x, e, max).toRemove) ==
            if e.schedulesOwn || e.fails then Numbers(d.toRemove) + {x.fd} else Numbers(d.toRemove)
  {
  }

  // ----- The drain

  lemma {:induction false} FirstMatchConcat<C, A>(a: seq<Reg<C, A>>, b: seq<Reg<C, A>>, fd: int)
    requires fd in Fds(a)
    ensures FirstMatch(a, fd) < |a| && FirstMatch(a + b, fd) == FirstMatch(a, fd)
    ensures RemoveFirst(a + b, fd) == RemoveFirst(a, fd) + b
  {
    var i := FirstMatch(a, fd);
    assert i < |a| by {
      var j :| 0 <= j < |a| && a[j].fd == fd;
    }
    var j := FirstMatch(a + b, fd);
    assert (a + b)[i] == a[i];
    assert j < |a + b| ==> j == i;
    assert (a + b)[..i] + (a + b)[i + 1..] == (a[..i] + a[i + 1..]) + b;
  }

  lemma {:induction false} WithoutAbsent<C, A>(t: seq<Reg<C, A>>, fds: set<int>)
    requires Fds(t) !! fds
    ensures Without(t, fds) == t
  {
    if t != [] {
      assert t[0].fd in Fds(t);
      assert t == [t[0]] + t[1..];
      FdsConcat([t[0]], t[1..]);
      WithoutAbsent(t[1..], fds);
    }
  }

  lemma {:induction false} RemoveFdCons<C, A>(x: Reg<C, A>, t: seq<Reg<C, A>>, fd: int)
    ensures RemoveFirst([x] + t, fd) == if x.fd == fd then t else [x] + RemoveFirst(t, fd)
  {
    var all := [x] + t;
    assert all[1..] == t;
    var i := FirstMatch(t, fd);
    if x.fd != fd && i < |t| {
      assert all[..i + 1] + all[i + 2..] == [x] + (t[..i] + t[i + 1..]);
    }
  }

  /** In a table of distinct numbers, removing the first match removes the number. */
  lemma {:induction false} RemoveIsWithout<C, A>(t: seq<Reg<C, A>>, fd: int)
    requires Distinct(t)
    ensures RemoveFirst(t, fd) == Without(t, {fd})
  {
    hide RemoveFirst;
    if t == [] {
      RemoveFromNothing<C, A>(fd);
    } else {
      assert t == [t[0]] + t[1..];
      RemoveFdCons(t[0], t[1..], fd);
      if t[0].fd == fd {
        WithoutAbsent(t[1..], {fd});
      } else {
        RemoveIsWithout(t[1..], fd);
      }
    }
  }

  lemma {:induction false} RemoveFromNothing<C, A>(fd: int)
    ensures RemoveFirst<C, A>([], fd) == []
  {
  }

  lemma {:induction false} WithoutTwice<C, A>(t: seq<Reg<C, A>>, a: set<int>, b: set<int>)
    ensures Without(Without(t, a), b) == Without(t, a + b)
  {
    if t != [] {
      WithoutTwice(t[1..], a, b);
    }
  }

  lemma {:induction false} FdsCons<C, A>(x: Reg<C, A>, t: seq<Reg<C, A>>)
    ensures Fds([x] + t) == {x.fd} + Fds(t)
  {
    FdsConcat([x], t);
    assert [x][0] == x;
    assert Fds([x]) == {x.fd};
  }

  lemma {:induction false} WithoutFds<C, A>(t: seq<Reg<C, A>>, fds: set<int>)
    requires Distinct(t)
    ensures Distinct(Without(t, fds)) && Fds(Without(t, fds)) == Fds(t) - fds
  {
    if t != [] {
      WithoutFds(t[1..], fds);
      assert t == [t[0]] + t[1..];
      hide Fds;
      FdsCons(t[0], t[1..]);
      FdsCons(t[0], Without(t[1..], fds));
      WithoutDistinct(t, fds);
    }
  }

  lemma {:induction false} WithoutDistinct<C, A>(t: seq<Reg<C, A>>, fds: set<int>)
    requires Distinct(t) && t != [] && Distinct(Without(t[1..], fds))
    ensures Distinct(Without(t, fds)) && t[0].fd !in Fds(t[1..])
  {
    forall x | x in Without(t[1..], fds) ensures x.fd != t[0].fd {
      assert x in t[1..];
    }
  }

  /** The drain takes out exactly the scheduled old entries: with stale and fresh
      entries of the same number in the table it always finds the stale one. */
  lemma {:induction false} DrainTakesStale<C, A>(old_: seq<Reg<C, A>>, new_: seq<Reg<C, A>>, stack: seq<int>)
    requires Distinct(old_) && NoRepeat(stack) && Numbers(stack) <= Fds(old_)
    ensures Drained(old_ + new_, stack) == Without(old_, Numbers(stack)) + new_
    decreases |stack|
  {
    if stack == [] {
      assert Numbers(stack) == {};
      WithoutAbsent(old_, {});
    } else {
      var fd, init := stack[|stack| - 1], stack[..|stack| - 1];
      FirstMatchConcat(old_, new_, fd);
      RemoveIsWithout(old_, fd);
      WithoutFds(old_, {fd});
      assert Numbers(stack) == {fd} + Numbers(init);
      DrainTakesStale(Without(old_, {fd}), new_, init);
      WithoutTwice(old_, {fd}, Numbers(init));
    }
  }

  // ----- What is registered, and what is closed

  /** A table of this capacity takes additions in turn while there is room. */
  function UpTo<T>(t: seq<T>, max: nat): seq<T> {
    if |t| <= max then t else t[..max]
  }

  /** What all these callbacks registered, in order. */
  function AllAdds<C, A>(effects: seq<Effect<C, A>>): seq<Reg<C, A>> {
    if effects == [] then []
    else AllAdds(effects[..|effects| - 1]) + effects[|effects| - 1].adds
  }

  lemma {:induction false} AddedUpTo<C, A>(all: seq<Reg<C, A>>, adds: seq<Reg<C, A>>, max: nat)
    ensures AddAll(UpTo(all, max), adds, max) == UpTo(all + adds, max)
  {
  }

  /** What one callback does to the loop, for each result and whether or not it
      scheduled its descriptor: the descriptor is closed exactly when it failed. */
  lemma {:induction false} CallEffect<C, A>(s: Loop<C, A>, r: Reg<C, A>, e: Effect<C, A>, max: nat)
    requires |s.table| <= max
    ensures var c := Called(s, r, e, max);
            && c.table == UpTo(s.table + e.adds, max)
            && c.toRemove == s.toRemove + (if e.schedulesOwn then [r.fd] else []) + (if e.fails then [r.fd] else [])
            && (forall f :: f in c.open <==>
                  (f in s.open || exists i | 0 <= i < |e.adds| :: e.adds[i].fd == f) && !(e.fails && f == r.fd))
  {
    AddedUpTo(s.table, e.adds, max);
  }

  /** After k callbacks the table holds what was there, and what they registered
      while there was room. */
  lemma {:induction false} DispatchRegisters<C, A>(s: Loop<C, A>, ready: seq<Reg<C, A>>, effects: seq<Effect<C, A>>,
                                             k: nat, max: nat)
    requires k <= |ready| && k <= |effects| && |s.table| <= max
    ensures Dispatched(s, ready, effects, k, max).table == UpTo(s.table + AllAdds(effects[..k]), max)
  {
    hide AddAll, UpTo;
    if k == 0 {
      assert s.table + [] == s.table;
      AllFit(s.table, max);
    } else {
      DispatchRegisters(s, ready, effects, k - 1, max);
      assert effects[..k][..k - 1] == effects[..k - 1];
      var before := AllAdds(effects[..k - 1]);
      AddedUpTo(s.table + before, effects[k - 1].adds, max);
      assert (s.table + before) + effects[k - 1].adds == s.table + (before + effects[k - 1].adds);
    }
  }

  lemma {:induction false} AllFit<T>(t: seq<T>, max: nat)
    requires |t| <= max
    ensures UpTo(t, max) == t
  {
  }

  /** Before the drain the table holds what was there, then all that callbacks and
      periodic tasks registered, in order, as far as the capacity goes. */
  lemma {:induction false} RoundRegisters<C, A>(s: Loop<C, A>, r: Round<C, A>, max: nat)
    requires |r.revents| == |s.table| <= max && |r.effects| == |Ready(s.table, r.revents)|
    ensures BeforeDrain(s, r, max).table == UpTo(s.table + AllAdds(r.effects) + r.periodic, max)
    ensures s.table + AddedInRound(s, r, max) == UpTo(s.table + AllAdds(r.effects) + r.periodic, max)
  {
    var ready := Ready(s.table, r.revents);
    DispatchRegisters(s, ready, r.effects, |ready|, max);
    assert r.effects[..|ready|] == r.effects;
    AddedUpTo(s.table + AllAdds(r.effects), r.periodic, max);
    AddedIsThere(s, ready, r.effects, |ready|, max);
    var d, n := Dispatched(s, ready, r.effects, |ready|, max).table, |ready|;
    assert (s.table + Added(s, ready, r.effects, n, max)) + r.periodic[..Taken(d, r.periodic, max)] ==
           s.table + AddedInRound(s, r, max);
  }

  lemma {:induction false} AddedIsThere<C, A>(s: Loop<C, A>, ready: seq<Reg<C, A>>, effects: seq<Effect<C, A>>,
                                        k: nat, max: nat)
    requires k <= |ready| && k <= |effects|
    ensures s.table + Added(s, ready, effects, k, max) == Dispatched(s, ready, effects, k, max).table
  {
    hide AddAll;
    if k == 0 {
      assert s.table + [] == s.table;
    } else {
      AddedIsThere(s, ready, effects, k - 1, max);
      var d, adds := Dispatched(s, ready, effects, k - 1, max).table, effects[k - 1].adds;
      assert (s.table + Added(s, ready, effects, k - 1, max)) + adds[..Taken(d, adds, max)] ==
             s.table + Added(s, ready, effects, k, max);
    }
  }

  /** The calls of one part of the table come before those of the next. */
  lemma {:induction false} ReadyConcat<C, A>(a: seq<Reg<C, A>>, x: seq<int>, b: seq<Reg<C, A>>, y: seq<int>)
    requires |x| == |a| && |y| == |b|
    ensures Ready(a + b, x + y) == Ready(a, x) + Ready(b, y)
    decreases |b|
  {
    if b == [] {
      assert a + b == a && x + y == x && Ready(a, x) + [] == Ready(a, x);
    } else {
      var n := |b| - 1;
      ReadyConcat(a, x, b[..n], y[..n]);
      assert (a + b)[..|a| + n] == a + b[..n] && (x + y)[..|a| + n] == x + y[..n];
      assert Ready(a, x) + (Ready(b[..n], y[..n]) + [b[n]]) == (Ready(a, x) + Ready(b[..n], y[..n])) + [b[n]];
    }
  }

  // ----- One iteration, and every run

  /** One iteration: the old entries minus those dropped or scheduled, in order,
      followed by the entries added. */
  lemma {:induction false} IterationExact<C, A>(s: Loop<C, A>, r: Round<C, A>, max: nat)
    requires Settled(s) && Lawful(s, r, max)
    ensures var ready := Ready(s.table, r.revents);
            Iterated(s, r, max).table ==
            Without(s.table, Dropped(ready, r.effects, |ready|)) + AddedInRound(s, r, max)
  {
    UnderwayBeforeDrain(s, r, max);
    DrainTakesStale(s.table, AddedInRound(s, r, max), BeforeDrain(s, r, max).toRemove);
  }

  lemma {:induction false} UnderwayBeforeDrain<C, A>(s: Loop<C, A>, r: Round<C, A>, max: nat)
    requires Settled(s) && Lawful(s, r, max)
    ensures var ready := Ready(s.table, r.revents);
            var b := BeforeDrain(s, r, max);
            && Underway(s.table, AddedInRound(s, r, max), b)
            && Numbers(b.toRemove) == Dropped(ready, r.effects, |ready|) && |b.toRemove| <= |ready|
  {
    var ready := Ready(s.table, r.revents);
    var n := |ready|;
    var d := Dispatched(s, ready, r.effects, n, max);
    UnderwayDispatched(s, r, n, max);
    UnderwayAdd(s.table, Added(s, ready, r.effects, n, max), d, r.periodic, max);
  }

  /** One iteration leaves the numbers distinct and open; meanwhile the stack
      never outgrows the table, and the table never its capacity. */
  lemma {:induction false} IterationSettles<C, A>(s: Loop<C, A>, r: Round<C, A>, max: nat)
    requires Settled(s) && Lawful(s, r, max) && |s.table| <= max
    ensures Settled(Iterated(s, r, max))
    ensures |BeforeDrain(s, r, max).toRemove| <= |s.table|
    ensures |Iterated(s, r, max).table| <= max
  {
    var ready := Ready(s.table, r.revents);
    var n := |ready|;
    UnderwayBeforeDrain(s, r, max);
    IterationExact(s, r, max);
    DispatchFits(s, ready, r.effects, n, max);
    hide Ready, Dispatched;
    var b, new_ := BeforeDrain(s, r, max), AddedInRound(s, r, max);
    WithoutFds(s.table, Numbers(b.toRemove));
    var kept := Without(s.table, Numbers(b.toRemove));
    FdsConcat(kept, new_);
    DistinctConcat(kept, new_);
  }

  lemma {:induction false} DistinctConcat<C, A>(a: seq<Reg<C, A>>, b: seq<Reg<C, A>>)
    requires Distinct(a) && Distinct(b) && Fds(a) !! Fds(b)
    ensures Distinct(a + b)
  {
    forall i, j | 0 <= i < j < |a + b| ensures (a + b)[i].fd != (a + b)[j].fd {
      if i < |a| <= j {
        assert a[i].fd in Fds(a) && b[j - |a|].fd in Fds(b);
      }
    }
  }

  lemma {:induction false} DispatchFits<C, A>(s: Loop<C, A>, ready: seq<Reg<C, A>>, effects: seq<Effect<C, A>>,
                                        k: nat, max: nat)
    requires k <= |ready| && k <= |effects| && |s.table| <= max
    ensures |s.table| <= |Dispatched(s, ready, effects, k, max).table| <= max
  {
    if k > 0 {
      DispatchFits(s, ready, effects, k - 1, max);
      var n := Taken(Dispatched(s, ready, effects, k - 1, max).table, effects[k - 1].adds, max);
    }
  }

  lemma {:induction false} WithoutMember<C, A>(t: seq<Reg<C, A>>, fds: set<int>, x: Reg<C, A>)
    ensures x in Without(t, fds) <==> x in t && x.fd !in fds
  {
    if t != [] {
      WithoutMember(t[1..], fds, x);
    }
  }

  /** x's callback was called, and scheduled its descriptor or failed. */
  ghost predicate Leaves<C, A>(ready: seq<Reg<C, A>>, effects: seq<Effect<C, A>>, x: Reg<C, A>)
    requires |ready| == |effects|
  {
    exists k | 0 <= k < |ready| :: ready[k] == x && (effects[k].schedulesOwn || effects[k].fails)
  }

  lemma {:induction false} DroppedIff<C, A>(t: seq<Reg<C, A>>, ready: seq<Reg<C, A>>, effects: seq<Effect<C, A>>,
                                      x: Reg<C, A>)
    requires |ready| == |effects| && Distinct(t) && x in t && forall y | y in ready :: y in t
    ensures x.fd in Dropped(ready, effects, |ready|) <==> Leaves(ready, effects, x)
  {
    if x.fd in Dropped(ready, effects, |ready|) {
      var k :| 0 <= k < |ready| && (effects[k].schedulesOwn || effects[k].fails) && ready[k].fd == x.fd;
      assert ready[k] in ready;
    }
  }

  /** With room for everything that is registered in it, an iteration leaves the
      old entries whose callback was not called, or neither scheduled nor failed,
      then whatever was registered, all of it and in order. */
  lemma {:induction false} IterationInFull<C, A>(s: Loop<C, A>, r: Round<C, A>, max: nat) returns (kept: seq<Reg<C, A>>)
    requires Settled(s) && Lawful(s, r, max)
    requires |s.table| + |AllAdds(r.effects)| + |r.periodic| <= max
    ensures Iterated(s, r, max).table == kept + (AllAdds(r.effects) + r.periodic)
    ensures Iterated(s, r, max).toRemove == []
    ensures kept == Without(s.table, Dropped(Ready(s.table, r.revents), r.effects, |r.effects|))
    ensures forall x :: x in kept <==> (x in s.table && !Leaves(Ready(s.table, r.revents), r.effects, x))
  {
    var ready := Ready(s.table, r.revents);
    IterationExact(s, r, max);
    RoomForAll(s, r, max);
    ReadyInTable(s.table, r.revents);
    hide Ready, Lawful, Iterated, AddedInRound, AllAdds, Without, Dropped, Leaves, Fds;
    kept := Without(s.table, Dropped(ready, r.effects, |ready|));
    forall x ensures x in kept <==> (x in s.table && !Leaves(ready, r.effects, x)) {
      WithoutMember(s.table, Dropped(ready, r.effects, |ready|), x);
      if x in s.table {
        DroppedIff(s.table, ready, r.effects, x);
      }
    }
    StackEmptied(s, r, max);
  }

  lemma {:induction false} StackEmptied<C, A>(s: Loop<C, A>, r: Round<C, A>, max: nat)
    requires |r.revents| == |s.table| && |r.effects| == |Ready(s.table, r.revents)|
    ensures Iterated(s, r, max).toRemove == []
  {
  }

  lemma {:induction false} RoomForAll<C, A>(s: Loop<C, A>, r: Round<C, A>, max: nat)
    requires |r.revents| == |s.table| && |r.effects| == |Ready(s.table, r.revents)|
    requires |s.table| + |AllAdds(r.effects)| + |r.periodic| <= max
    ensures AddedInRound(s, r, max) == AllAdds(r.effects) + r.periodic
  {
    hide AddedInRound, AllAdds;
    RoundRegisters(s, r, max);
    var adds := AllAdds(r.effects) + r.periodic;
    assert s.table + AllAdds(r.effects) + r.periodic == s.table + adds;
    SameFront(s.table, AddedInRound(s, r, max), adds);
  }

  lemma {:induction false} SameFront<T>(a: seq<T>, x: seq<T>, y: seq<T>)
    ensures a + x == a + y <==> x == y
  {
    if a + x == a + y {
      assert x == (a + x)[|a|..] && y == (a + y)[|a|..];
    }
  }

  lemma {:induction false} OpenedSoFar<C, A>(s: Loop<C, A>, ready: seq<Reg<C, A>>, effects: seq<Effect<C, A>>,
                                       k: nat, max: nat)
    requires k <= |ready| && k <= |effects|
    ensures Dispatched(s, ready, effects, k, max).open <= s.open + Fds(AllAdds(effects[..k]))
  {
    hide AddAll;
    if k > 0 {
      OpenedSoFar(s, ready, effects, k - 1, max);
      assert effects[..k][..k - 1] == effects[..k - 1];
      FdsConcat(AllAdds(effects[..k - 1]), effects[k - 1].adds);
    }
  }

  lemma {:induction false} AddsSplit<C, A>(effects: seq<Effect<C, A>>, k: nat) returns (rest: seq<Reg<C, A>>)
    requires k < |effects|
    ensures AllAdds(effects) == AllAdds(effects[..k]) + effects[k].adds + rest
    decreases |effects|
  {
    var n := |effects| - 1;
    if k == n {
      rest := [];
      assert AllAdds(effects[..n]) + effects[n].adds + [] == AllAdds(effects);
    } else {
      rest := AddsSplit(effects[..n], k);
      assert effects[..n][..k] == effects[..k];
      assert AllAdds(effects[..k]) + effects[k].adds + (rest + effects[n].adds) == AllAdds(effects);
      rest := rest + effects[n].adds;
    }
  }

  lemma {:induction false} DistinctParts<C, A>(a: seq<Reg<C, A>>, b: seq<Reg<C, A>>, c: seq<Reg<C, A>>)
    requires Distinct(a + b + c)
    ensures Distinct(b) && Fds(a) !! Fds(b)
  {
    var all := a + b + c;
    forall i, j | 0 <= i < |a| && 0 <= j < |b| ensures a[i].fd != b[j].fd {
      assert all[i] == a[i] && all[|a| + j] == b[j];
    }
    forall i, j | 0 <= i < j < |b| ensures b[i].fd != b[j].fd {
      assert all[|a| + i] == b[i] && all[|a| + j] == b[j];
    }
  }

  /** Whatever is reported ready, and whatever callbacks return, short of doing both
      at once: a round in which all numbers opened are new can happen. */
  lemma {:induction false} NewNumbersAreLawful<C, A>(s: Loop<C, A>, r: Round<C, A>, max: nat)
    requires |r.revents| == |s.table| && |r.effects| == |Ready(s.table, r.revents)|
    requires Unused(s.open, AllAdds(r.effects) + r.periodic)
    requires forall k | 0 <= k < |r.effects| :: !(r.effects[k].schedulesOwn && r.effects[k].fails)
    ensures Lawful(s, r, max)
  {
    var ready := Ready(s.table, r.revents);
    var all, n := AllAdds(r.effects), |ready|;
    hide Ready, Dispatched, AllAdds, Fds, Distinct;
    FdsConcat(all, r.periodic);
    forall k | 0 <= k < n ensures LawfulCall(s, ready, r.effects, k, max) {
      var rest := AddsSplit(r.effects, k);
      OpenedSoFar(s, ready, r.effects, k, max);
      var before, adds := AllAdds(r.effects[..k]), r.effects[k].adds;
      assert before + adds + (rest + r.periodic) == all + r.periodic;
      DistinctParts(before, adds, rest + r.periodic);
      FdsConcat(before + adds, rest);
      FdsConcat(before, adds);
    }
    OpenedSoFar(s, ready, r.effects, n, max);
    assert r.effects[..n] == r.effects;
    assert all + r.periodic == all + r.periodic + [];
    DistinctParts(all, r.periodic, []);
  }

  /** A whole run of rounds that the environment can offer. */
  ghost predicate LawfulRun<C, A>(s: Loop<C, A>, rounds: seq<Round<C, A>>, max: nat)
    decreases |rounds|
  {
    rounds == [] || (Lawful(s, rounds[0], max) && LawfulRun(Iterated(s, rounds[0], max), rounds[1..], max))
  }

  function AfterRun<C, A>(s: Loop<C, A>, rounds: seq<Round<C, A>>, max: nat): Loop<C, A>
    requires LawfulRun(s, rounds, max)
    decreases |rounds|
  {
    if rounds == [] then s else AfterRun(Iterated(s, rounds[0], max), rounds[1..], max)
  }

  /** Registered numbers are distinct, and open, at every iteration boundary. */
  lemma {:induction false} SettledForever<C, A>(s: Loop<C, A>, rounds: seq<Round<C, A>>, max: nat)
    requires Settled(s) && |s.table| <= max && LawfulRun(s, rounds, max)
    ensures Settled(AfterRun(s, rounds, max)) && |AfterRun(s, rounds, max).table| <= max
    decreases |rounds|
  {
    if rounds != [] {
      IterationSettles(s, rounds[0], max);
      SettledForever(Iterated(s, rounds[0], max), rounds[1..], max);
    }
  }

  /** Scheduling and failing together would be too much: the number is on the
      stack twice, and the second removal takes a fresh registration. */
  lemma {:induction false} ScheduledTwiceTakesFresh()
    ensures var stale, fresh_ := Reg(7, 1, 0, 0), Reg(7, 1, 0, 1);
            var s := Loop([stale], [], {7});
            var r := Round([1], [Effect([], true, true)], [fresh_]);
            && Settled(s) && BeforeDrain(s, r, 2).toRemove == [7, 7]
            && Iterated(s, r, 2).table == []
  {
    var stale, fresh_ := Reg(7, 1, 0, 0), Reg(7, 1, 0, 1);
    var s := Loop([stale], [], {7});
    var r := Round([1], [Effect([], true, true)], [fresh_]);
    assert Ready(s.table[..0], r.revents[..0]) == [];
    assert Ready(s.table, r.revents) == [stale];
    var d := Dispatched(s, [stale], r.effects, 1, 2);
    assert Dispatched(s, [stale], r.effects, 0, 2) == s;
    assert d.table == [stale] && d.toRemove == [7, 7];
    assert BeforeDrain(s, r, 2).table == [stale, fresh_];
    assert RemoveFirst([stale, fresh_], 7) == [fresh_];
    assert RemoveFirst([fresh_], 7) == [];
    assert [7, 7][..1] == [7] && [7][..0] == [];
    assert Drained([fresh_], [7]) == Drained([], [7][..0]);
    assert Drained([stale, fresh_], [7, 7]) == Drained([fresh_], [7]);
  }

  // ----- The loop in place

  datatype PollFd = PollFd(fd: int, events: int, revents: int)

  lemma {:induction false} ReadyPrefix<C, A>(t: seq<Reg<C, A>>, revents: seq<int>, i: nat)
    requires |t| == |revents| && i <= |t|
    ensures Ready(t[..i], revents[..i]) <= Ready(t, revents)
    decreases |t| - i
  {
    if i < |t| {
      ReadyPrefix(t, revents, i + 1);
      assert t[..i + 1][..i] == t[..i] && revents[..i + 1][..i] == revents[..i];
    } else {
      assert t[..i] == t && revents[..i] == revents;
    }
  }

  /** now is before with the elements of from + 1..i + 1 moved down by one. */
  ghost predicate Moved<T>(now: seq<T>, before: seq<T>, from: nat, i: nat) {
    && |now| == |before| && i < |now|
    && forall j | 0 <= j < |now| :: now[j] == before[if from <= j < i then j + 1 else j]
  }

  lemma {:induction false} UnmovedYet<T>(before: seq<T>, from: nat)
    requires from < |before|
    ensures Moved(before, before, from, from)
  {
  }

  lemma {:induction false} MoveOne<T>(now: seq<T>, before: seq<T>, from: nat, i: nat)
    requires Moved(now, before, from, i) && from <= i && i + 1 < |now|
    ensures Moved(now[i := now[i + 1]], before, from, i + 1)
  {
  }

  lemma {:induction false} MovedAt<T>(now: seq<T>, before: seq<T>, from: nat, i: nat)
    requires Moved(now, before, from, i)
    ensures |now| == |before|
    ensures forall j | 0 <= j < i :: now[j] == before[if from <= j then j + 1 else j]
  {
  }

  lemma {:induction false} AddNone<C, A>(t: seq<Reg<C, A>>, max: nat)
    ensures AddAll(t, [], max) == t
  {
  }

  lemma {:induction false} AddOneMore<C, A>(t: seq<Reg<C, A>>, adds: seq<Reg<C, A>>, x: Reg<C, A>, max: nat)
    requires |t| <= max
    ensures AddAll(AddAll(t, adds, max), [x], max) == AddAll(t, adds + [x], max)
  {
    var k := |adds|;
    if |t| + k < max {
      assert (t + adds) + [x] == t + (adds + [x]);
    } else {
      var m := max - |t|;
      assert (adds + [x])[..m] == adds[..m];
    }
  }

  lemma {:induction false} ReadyStep<C, A>(t: seq<Reg<C, A>>, revents: seq<int>, i: nat)
    requires |t| == |revents| && i < |t|
    ensures Ready(t[..i + 1], revents[..i + 1]) ==
            Ready(t[..i], revents[..i]) + if revents[i] != 0 then [t[i]] else []
  {
    assert t[..i + 1][..i] == t[..i] && revents[..i + 1][..i] == revents[..i];
  }

  lemma {:induction false} DispatchKeepsTable<C, A>(s: Loop<C, A>, ready: seq<Reg<C, A>>, effects: seq<Effect<C, A>>,
                                              k: nat, max: nat)
    requires k <= |ready| && k <= |effects|
    ensures s.table <= Dispatched(s, ready, effects, k, max).table
  {
    if k > 0 {
      DispatchKeepsTable(s, ready, effects, k - 1, max);
      var n := Taken(Dispatched(s, ready, effects, k - 1, max).table, effects[k - 1].adds, max);
    }
  }

  /** What the loop knows when it calls the entry at i as its k-th callback. */
  lemma {:induction false} CallFacts<C, A>(s: Loop<C, A>, r: Round<C, A>, k: nat, i: nat, max: nat)
    requires Settled(s) && Lawful(s, r, max) && |s.table| <= max && i < |s.table|
    requires r.revents[i] != 0 && k == |Ready(s.table[..i], r.revents[..i])|
    ensures k < |Ready(s.table, r.revents)| && |r.effects| == |Ready(s.table, r.revents)|
    ensures var ready := Ready(s.table, r.revents);
            var d := Dispatched(s, ready, r.effects, k, max);
            && ready[k] == s.table[i]
            && !(r.effects[k].schedulesOwn && r.effects[k].fails)
            && Dispatched(s, ready, r.effects, k + 1, max) == Called(d, ready[k], r.effects[k], max)
            && |d.toRemove| < max && i < |d.table| && d.table[i] == s.table[i]
            && Ready(s.table[..i + 1], r.revents[..i + 1]) <= ready
  {
    ReadyStep(s.table, r.revents, i);
    ReadyPrefix(s.table, r.revents, i + 1);
    LawfulAt(s, r, k, max);
    UnderwayDispatched(s, r, k, max);
    DispatchKeepsTable(s, Ready(s.table, r.revents), r.effects, k, max);
  }

  /** The dispatch loop before index i: the callbacks called so far are those
      ready below i, and d is the state they left. */
  ghost predicate Progress<C, A>(s: Loop<C, A>, r: Round<C, A>, called: seq<Reg<C, A>>, d: Loop<C, A>,
                                 i: nat, max: nat)
  {
    var m := if i < |s.table| then i else |s.table|;
    && Settled(s) && Lawful(s, r, max) && |s.table| <= max
    && called == Ready(s.table[..m], r.revents[..m])
    && |called| <= |r.effects| && called <= Ready(s.table, r.revents)
    && d == Dispatched(s, Ready(s.table, r.revents), r.effects, |called|, max)
  }

  lemma {:induction false} ProgressStart<C, A>(s: Loop<C, A>, r: Round<C, A>, max: nat)
    requires Settled(s) && Lawful(s, r, max) && |s.table| <= max
    ensures Progress(s, r, [], s, 0, max)
  {
    assert s.table[..0] == [] && r.revents[..0] == [];
  }

  lemma {:induction false} ProgressSkip<C, A>(s: Loop<C, A>, r: Round<C, A>, called: seq<Reg<C, A>>, d: Loop<C, A>,
                                        i: nat, max: nat)
    requires Progress(s, r, called, d, i, max)
    requires i < |s.table| ==> r.revents[i] == 0
    ensures Progress(s, r, called, d, i + 1, max)
  {
    hide Ready, Dispatched;
    if i < |s.table| {
      ReadyStep(s.table, r.revents, i);
    }
  }

  lemma {:induction false} ProgressCall<C, A>(s: Loop<C, A>, r: Round<C, A>, called: seq<Reg<C, A>>, d: Loop<C, A>,
                                        i: nat, max: nat)
    requires Progress(s, r, called, d, i, max)
    requires i < |s.table| && r.revents[i] != 0
    ensures |called| < |r.effects| && i < |d.table| && d.table[i] == s.table[i]
    ensures var e := r.effects[|called|];
            && !(e.schedulesOwn && e.fails) && |d.toRemove| < max
            && Progress(s, r, called + [d.table[i]], Called(d, d.table[i], e, max), i + 1, max)
  {
    hide Ready, Dispatched;
    CallFacts(s, r, |called|, i, max);
    ReadyStep(s.table, r.revents, i);
  }

  lemma {:induction false} ProgressEnd<C, A>(s: Loop<C, A>, r: Round<C, A>, called: seq<Reg<C, A>>, d: Loop<C, A>,
                                       i: nat, max: nat)
    requires Progress(s, r, called, d, i, max) && i >= |s.table|
    ensures |r.revents| == |s.table| && called == Ready(s.table, r.revents) && |called| <= |r.effects|
    ensures d == Dispatched(s, called, r.effects, |called|, max)
  {
    assert s.table[..|s.table|] == s.table && r.revents[..|s.table|] == r.revents;
  }

  class EventLoop<C(0), A(0)> {
    const max: nat
    const fds: array<PollFd>
    const callbacks: array<C>
    const args: array<A>
    const toRemove: array<int>
    var nextFd: nat
    var nextToRemove: nat

    ghost predicate Valid()
      reads this
    {
      && fds.Length == callbacks.Length == args.Length == toRemove.Length == max
      && (fds as object) != callbacks && (fds as object) != args && (fds as object) != toRemove
      && (callbacks as object) != args && (callbacks as object) != toRemove && (args as object) != toRemove
      && nextFd <= max && nextToRemove <= max
    }

    ghost const Repr: set<object> := {this, fds, callbacks, args, toRemove}

    ghost function Entry(i: nat): Reg<C, A>
      requires Valid() && i < nextFd
      reads this, fds, callbacks, args
    {
      Reg(fds[i].fd, fds[i].events, callbacks[i], args[i])
    }

    /** The registrations: the three arrays in step. */
    ghost function Table(): (t: seq<Reg<C, A>>)
      requires Valid()
      reads this, fds, callbacks, args
      ensures |t| == nextFd && forall i | 0 <= i < nextFd :: t[i] == Entry(i)
    {
      seq(nextFd, i requires 0 <= i < nextFd && Valid() reads this, fds, callbacks, args => Entry(i))
    }

    ghost function Stack(): seq<int>
      requires Valid()
      reads this, toRemove
    {
      toRemove[..nextToRemove]
    }

    /** `event_loop_init` */
    constructor (max: nat)
      ensures Valid() && Table() == [] && Stack() == [] && this.max == max
      ensures fresh(Repr)
    {
      this.max := max;
      fds := new PollFd[max](_ => PollFd(0, 0, 0));
      callbacks := new C[max];
      args := new A[max];
      toRemove := new int[max];
      nextFd, nextToRemove := 0, 0;
    }

    /** `event_loop_add_fd` */
    method AddFd(r: Reg<C, A>) returns (code: int)
      requires Valid()
      modifies this`nextFd, fds, callbacks, args
      ensures Valid() && nextFd >= old(nextFd)
      ensures Table() == AddAll(old(Table()), [r], max)
      ensures old(nextFd) < max ==> code == 0 && Table() == old(Table()) + [r]
      ensures old(nextFd) == max ==> code == -1 && Table() == old(Table())
      ensures forall i | 0 <= i < old(nextFd) :: fds[i] == old(fds[i])
      ensures forall i | old(nextFd) <= i < nextFd :: fds[i].revents == 0
    {
      if nextFd == max {
        return -1;
      }
      ghost var before := Table();
      fds[nextFd] := PollFd(r.fd, r.events, 0);
      callbacks[nextFd] := r.callback;
      args[nextFd] := r.arg;
      nextFd := nextFd + 1;
      assert forall i | 0 <= i < nextFd - 1 :: Entry(i) == before[i];
      assert Table() == before + [r];
      code := 0;
    }

    /** The search loop of `event_loop_remove_fd`. */
    method Search(fd: int) returns (found: int)
      requires Valid()
      ensures fd in Fds(Table()) ==> found == FirstMatch(Table(), fd) && 0 <= found < nextFd
      ensures fd !in Fds(Table()) ==> found == -1
    {
      ghost var t := Table();
      found := -1;
      var i := 0;
      while i < nextFd
        invariant 0 <= i <= nextFd
        invariant forall j | 0 <= j < i :: t[j].fd != fd
      {
        assert t[i].fd == fds[i].fd;
        if fds[i].fd == fd {
          found := i;
          return;
        }
        i := i + 1;
      }
    }

    /** Closing the gap at an index, in all three arrays. */
    method Shift(from: nat)
      requires Valid() && from < nextFd
      modifies this`nextFd, fds, callbacks, args
      ensures Valid() && nextFd == old(nextFd) - 1
      ensures Table() == old(Table())[..from] + old(Table())[from + 1..]
    {
      hide Moved;
      ghost var before := Table();
      ghost var f, c, a := fds[..], callbacks[..], args[..];
      var i := from;
      UnmovedYet(f, from);
      UnmovedYet(c, from);
      UnmovedYet(a, from);
      while i < nextFd - 1
        invariant from <= i < nextFd == |before|
        invariant Moved(fds[..], f, from, i) && Moved(callbacks[..], c, from, i) && Moved(args[..], a, from, i)
      {
        MoveOne(fds[..], f, from, i);
        MoveOne(callbacks[..], c, from, i);
        MoveOne(args[..], a, from, i);
        fds[i] := fds[i + 1];
        callbacks[i] := callbacks[i + 1];
        args[i] := args[i + 1];
        i := i + 1;
      }
      nextFd := nextFd - 1;
      MovedAt(fds[..], f, from, i);
      MovedAt(callbacks[..], c, from, i);
      MovedAt(args[..], a, from, i);
      assert forall j | 0 <= j < nextFd :: Table()[j] == before[if from <= j then j + 1 else j] by {
        assert forall j | 0 <= j < nextFd ::
            fds[j] == fds[..][j] && callbacks[j] == callbacks[..][j] && args[j] == args[..][j];
      }
    }

    /** `event_loop_remove_fd` */
    method RemoveFd(fd: int) returns (code: int)
      requires Valid()
      modifies this`nextFd, fds, callbacks, args
      ensures Valid()
      ensures Table() == RemoveFirst(old(Table()), fd)
      ensures code == if fd in Fds(old(Table())) then 0 else -1
      ensures code == -1 ==> Table() == old(Table())
      ensures code == 0 ==> exists i | 0 <= i < |old(Table())| ::
                old(Table())[i].fd == fd && (forall j | 0 <= j < i :: old(Table())[j].fd != fd)
                && Table() == old(Table())[..i] + old(Table())[i + 1..]
    {
      var found := Search(fd);
      if found < 0 {
        return -1;
      }
      Shift(found);
      code := 0;
    }

    /** `event_loop_schedule_remove_fd` */
    method ScheduleRemove(fd: int)
      requires Valid() && nextToRemove < max
      modifies this`nextToRemove, toRemove
      ensures Valid() && Stack() == old(Stack()) + [fd]
    {
      toRemove[nextToRemove] := fd;
      nextToRemove := nextToRemove + 1;
    }

    /** `poll` reports on every registration. */
    method Poll(revents: seq<int>)
      requires Valid() && |revents| == nextFd
      modifies fds
      ensures Valid() && Table() == old(Table())
      ensures forall i | 0 <= i < nextFd :: fds[i].revents == revents[i]
    {
      ghost var before := Table();
      var i := 0;
      while i < nextFd
        invariant 0 <= i <= nextFd
        invariant forall j | 0 <= j < i :: fds[j].revents == revents[j]
        invariant forall j | 0 <= j < nextFd :: fds[j].fd == before[j].fd && fds[j].events == before[j].events
      {
        fds[i] := fds[i].(revents := revents[i]);
        i := i + 1;
      }
      assert forall j | 0 <= j < nextFd :: Table()[j] == before[j];
    }

    /** Several registrations, as callbacks and periodic tasks make them. */
    method AddAllFds(adds: seq<Reg<C, A>>)
      requires Valid()
      modifies this`nextFd, fds, callbacks, args
      ensures Valid() && nextFd >= old(nextFd)
      ensures Table() == AddAll(old(Table()), adds, max)
      ensures forall i | 0 <= i < old(nextFd) :: fds[i] == old(fds[i])
      ensures forall i | old(nextFd) <= i < nextFd :: fds[i].revents == 0
    {
      hide AddAll;
      ghost var before := Table();
      AddNone(before, max);
      var i := 0;
      while i < |adds|
        invariant 0 <= i <= |adds| && Valid() && nextFd >= old(nextFd)
        invariant Table() == AddAll(before, adds[..i], max)
        invariant forall j | 0 <= j < old(nextFd) :: fds[j] == old(fds[j])
        invariant forall j | old(nextFd) <= j < nextFd :: fds[j].revents == 0
      {
        AddOneMore(before, adds[..i], adds[i], max);
        assert adds[..i + 1] == adds[..i] + [adds[i]];
        var code := AddFd(adds[i]);
        i := i + 1;
      }
      assert adds[..i] == adds;
    }

    /** A callback with this effect, and what the loop does with its result. */
    method Call(fd: int, e: Effect<C, A>, ghost s: Loop<C, A>, ghost x: Reg<C, A>)
      requires Valid() && Table() == s.table && Stack() == s.toRemove && x.fd == fd
      requires !(e.schedulesOwn && e.fails) && nextToRemove < max
      modifies Repr
      ensures Valid() && nextFd >= old(nextFd)
      ensures Table() == Called(s, x, e, max).table && Stack() == Called(s, x, e, max).toRemove
      ensures forall i | 0 <= i < old(nextFd) :: fds[i] == old(fds[i])
      ensures forall i | old(nextFd) <= i < nextFd :: fds[i].revents == 0
    {
      hide AddAll;
      AddAllFds(e.adds);
      if e.schedulesOwn {
        ScheduleRemove(fd);
      }
      var code := if e.fails then -1 else 0;
      if code < 0 {
        ScheduleRemove(fd);
      }
    }

    /** The entry at i is called, with its revents cleared. */
    method CallEntry(i: nat, e: Effect<C, A>, ghost d: Loop<C, A>) returns (x: Reg<C, A>)
      requires Valid() && i < nextFd && Table() == d.table && Stack() == d.toRemove
      requires !(e.schedulesOwn && e.fails) && nextToRemove < max
      modifies Repr
      ensures Valid() && nextFd >= old(nextFd) && x == d.table[i]
      ensures Table() == Called(d, x, e, max).table && Stack() == Called(d, x, e, max).toRemove
      ensures forall j | 0 <= j < old(nextFd) && j != i :: fds[j] == old(fds[j])
      ensures fds[i].revents == 0
      ensures forall j | old(nextFd) <= j < nextFd :: fds[j].revents == 0
    {
      hide Called;
      fds[i] := fds[i].(revents := 0);
      assert forall j | 0 <= j < nextFd :: Table()[j] == d.table[j];
      x := Reg(fds[i].fd, fds[i].events, callbacks[i], args[i]);
      Call(x.fd, e, d, x);
    }

    /** The dispatch loop: the bound is the current table's, which callbacks may raise. */
    method Dispatch(r: Round<C, A>, ghost s: Loop<C, A>) returns (called: seq<Reg<C, A>>)
      requires Valid() && Table() == s.table && Stack() == s.toRemove
      requires Settled(s) && Lawful(s, r, max)
      requires forall i | 0 <= i < nextFd :: fds[i].revents == r.revents[i]
      modifies Repr
      ensures Valid() && called == Ready(s.table, r.revents)
      ensures var d := Dispatched(s, called, r.effects, |called|, max);
              Table() == d.table && Stack() == d.toRemove
      ensures forall i | 0 <= i < nextFd :: fds[i].revents == 0
    {
      ghost var n := |s.table|;
      assert |r.revents| == n;
      hide Called, Progress, Dispatched, Ready, Lawful, Settled;
      ghost var d := s;
      called := [];
      var i := 0;
      ProgressStart(s, r, max);
      while i < nextFd
        invariant Valid() && 0 <= i <= nextFd && n <= nextFd
        invariant Progress(s, r, called, d, i, max)
        invariant Table() == d.table && Stack() == d.toRemove
        invariant forall j | i <= j < n :: fds[j].revents == r.revents[j]
        invariant forall j | 0 <= j < i :: fds[j].revents == 0
        invariant forall j | n <= j < nextFd :: fds[j].revents == 0
        decreases max - i
      {
        if fds[i].revents != 0 {
          ProgressCall(s, r, called, d, i, max);
          ghost var k, before := |called|, d;
          var x := CallEntry(i, r.effects[|called|], d);
          called := called + [x];
          d := Called(before, x, r.effects[k], max);
        } else {
          ProgressSkip(s, r, called, d, i, max);
        }
        i := i + 1;
      }
      ProgressEnd(s, r, called, d, i, max);
    }

    /** The drain loop. */
    method Drain()
      requires Valid()
      modifies Repr
      ensures Valid() && Stack() == []
      ensures Table() == Drained(old(Table()), old(Stack()))
    {
      hide RemoveFirst;
      while nextToRemove != 0
        invariant Valid()
        invariant Drained(Table(), Stack()) == Drained(old(Table()), old(Stack()))
      {
        ghost var t, stack := Table(), Stack();
        assert Drained(t, stack) == Drained(RemoveFirst(t, stack[|stack| - 1]), stack[..|stack| - 1]);
        var code := RemoveFd(toRemove[nextToRemove - 1]);
        ghost var t' := Table();
        nextToRemove := nextToRemove - 1;
        assert Table() == t';
        assert Stack() == stack[..|stack| - 1];
      }
    }

    /** One turn of the outer loop of `event_loop_run_loop`. */
    method RunIteration(r: Round<C, A>, ghost open: set<int>) returns (called: seq<Reg<C, A>>)
      requires Valid() && Stack() == []
      requires Settled(Loop(Table(), [], open)) && Lawful(Loop(Table(), [], open), r, max)
      modifies Repr
      ensures Valid() && Stack() == []
      ensures called == Ready(old(Table()), r.revents)
      ensures Table() == Iterated(Loop(old(Table()), [], open), r, max).table
    {
      hide Settled, Ready, Drained, AddAll;
      ghost var s := Loop(Table(), [], open);
      Poll(r.revents);
      called := Dispatch(r, s);
      AddAllFds(r.periodic);
      Drain();
    }
  }
}
