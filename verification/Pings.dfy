/** Pinging the known nodes over the descriptor loop. */
module Pings {
  import opened Options
  import opened EventLoops

  /** The callbacks the program registers; a ping's argument is its node entry, here
      that node's name. */
  datatype Callback = NewConnection | ClientData | PingSock

  /** POLLIN, POLLERR and POLLHUP. */
  const PING_EVENTS: int := 0x19

  type Entry = Reg<Callback, string>

  /** The loop in the middle of an iteration that began with `n` registrations
      and has looked at the first `next`; each node's waiting_pong_since; and the
      nodes that ever failed a ping. */
  datatype World = World(
    loop: Loop<Callback, string>,
    n: nat,
    next: nat,
    waiting: map<string, int>,
    failed: set<string>)

  datatype Step =
    | Poll                                                   // a new iteration
    | NotReady                                               // the next entry is passed over
    | Pong                                                   // the next entry's ping is answered
    | NoPong                                                 // its reply is missing or wrong
    | Served(e: Effect<Callback, string>, hello: Option<string>)   // any other callback; a hello adds a node
    | Ping(node: string, connected: Option<int>, now: int)      // `ping_node` in the periodic task
    | Drain                                                  // the end of the iteration

  /** The registrations once the drain is done. */
  ghost function Live(w: World): seq<Entry>
    requires w.n <= |w.loop.table|
  {
    Without(w.loop.table[..w.n], Numbers(w.loop.toRemove)) + w.loop.table[w.n..]
  }

  /** What the program and its environment may do next. */
  ghost predicate Enabled(w: World, step: Step) {
    match step
    case Poll => w.loop.toRemove == [] && w.next == w.n
    case NotReady => w.next < w.n
    case Pong => w.next < w.n <= |w.loop.table| && w.loop.table[w.next].callback.PingSock?
    case NoPong => w.next < w.n <= |w.loop.table| && w.loop.table[w.next].callback.PingSock?
    case Served(e, hello) =>
      && w.next < w.n <= |w.loop.table| && !w.loop.table[w.next].callback.PingSock?
      && !e.schedulesOwn && Unused(w.loop.open, e.adds)
      && forall i | 0 <= i < |e.adds| :: !e.adds[i].callback.PingSock?
    case Ping(node, connected, now) =>
      && w.next == w.n && node in w.waiting && now > 0
      && (connected.Some? ==> connected.value !in w.loop.open)
    case Drain => w.next == w.n
  }

  /** `ping_node` */
  function Pinged(w: World, node: string, connected: Option<int>, now: int, max: nat): World
    requires node in w.waiting
  {
    if w.waiting[node] != 0 then w
    else match connected
      case None => w.(waiting := w.waiting[node := -1], failed := w.failed + {node})
      case Some(fd) =>
        var adds := [Reg(fd, PING_EVENTS, PingSock, node)];
        w.(waiting := w.waiting[node := now],
           loop := Loop(AddAll(w.loop.table, adds, max), w.loop.toRemove, w.loop.open + Fds(adds)))
  }

  function Do(w: World, step: Step, max: nat): World
    requires w.n <= |w.loop.table| && Enabled(w, step)
  {
    match step
    case Poll => w.(n := |w.loop.table|, next := 0)
    case NotReady => w.(next := w.next + 1)
    case Pong =>
      var x := w.loop.table[w.next];
      w.(loop := Called(w.loop, x, Effect([], true, false), max), next := w.next + 1,
         waiting := w.waiting[x.arg := 0])
    case NoPong =>
      var x := w.loop.table[w.next];
      w.(loop := Called(w.loop, x, Effect([], false, true), max), next := w.next + 1,
         failed := w.failed + {x.arg})
    case Served(e, hello) =>
      w.(loop := Called(w.loop, w.loop.table[w.next], e, max), next := w.next + 1,
         waiting := if hello.Some? && hello.value !in w.waiting then w.waiting[hello.value := 0] else w.waiting)
    case Ping(node, connected, now) => Pinged(w, node, connected, now, max)
    case Drain =>
      var table := Drained(w.loop.table, w.loop.toRemove);
      w.(loop := Loop(table, [], w.loop.open), n := |table|, next := |table|)
  }

  /** No two registrations ping the same node. */
  ghost predicate OnePing(live: seq<Entry>) {
    forall i, j | 0 <= i < j < |live| && live[i].callback.PingSock? && live[j].callback.PingSock? ::
      live[i].arg != live[j].arg
  }

  /** A ping is registered only while its node's pong is awaited. */
  ghost predicate PingsAwaited(live: seq<Entry>, waiting: map<string, int>) {
    forall x | x in live && x.callback.PingSock? :: x.arg in waiting && waiting[x.arg] != 0
  }

  /** A node that failed is awaited for ever and has no ping registered. */
  ghost predicate FailedStay(live: seq<Entry>, waiting: map<string, int>, failed: set<string>) {
    && (forall f | f in failed :: f in waiting && waiting[f] != 0)
    && (forall x | x in live && x.callback.PingSock? :: x.arg !in failed)
  }

  /** What the loop keeps true at every step. */
  ghost predicate Sound(w: World) {
    && w.next <= w.n <= |w.loop.table|
    && Distinct(w.loop.table[..w.n])
    && Underway(w.loop.table[..w.n], w.loop.table[w.n..], w.loop)
    && Numbers(w.loop.toRemove) <= Fds(w.loop.table[..w.next])
  }

  ghost predicate Inv(w: World) {
    && Sound(w)
    && OnePing(Live(w)) && PingsAwaited(Live(w), w.waiting) && FailedStay(Live(w), w.waiting, w.failed)
  }

  // ----- The registrations that survive the drain

  lemma {:induction false} OnePingWithout(a: seq<Entry>, b: seq<Entry>, fds: set<int>)
    requires OnePing(a + b)
    ensures OnePing(Without(a, fds) + b)
  {
    if a != [] {
      OnePingTail(a, b);
      OnePingWithout(a[1..], b, fds);
      var rest := Without(a[1..], fds) + b;
      if a[0].fd !in fds {
        assert Without(a, fds) + b == [a[0]] + rest;
        forall y | y in rest && a[0].callback.PingSock? && y.callback.PingSock? ensures y.arg != a[0].arg {
          HeadDiffers(a, b, y);
        }
      } else {
        assert Without(a, fds) + b == rest;
      }
    }
  }

  lemma {:induction false} OnePingTail(a: seq<Entry>, b: seq<Entry>)
    requires a != [] && OnePing(a + b)
    ensures OnePing(a[1..] + b)
  {
    assert forall i | 0 <= i < |a[1..] + b| :: (a[1..] + b)[i] == (a + b)[i + 1];
  }

  lemma {:induction false} HeadDiffers(a: seq<Entry>, b: seq<Entry>, y: Entry)
    requires a != [] && OnePing(a + b) && (y in a[1..] || y in b)
    requires a[0].callback.PingSock? && y.callback.PingSock?
    ensures y.arg != a[0].arg
  {
    assert y in a[1..] + b;
    var j :| 0 <= j < |a[1..] + b| && (a[1..] + b)[j] == y;
    assert (a + b)[j + 1] == y && (a + b)[0] == a[0];
  }

  /** Once a ping's registration goes, no other pings that node. */
  lemma {:induction false} RemovedPing(a: seq<Entry>, b: seq<Entry>, x: Entry, y: Entry)
    requires OnePing(a + b) && x in a && x.callback.PingSock? && y.callback.PingSock?
    requires y in Without(a, {x.fd}) + b
    ensures y.arg != x.arg
  {
    var i :| 0 <= i < |a| && a[i] == x;
    assert (a + b)[i] == x;
    if y in b {
      var k :| 0 <= k < |b| && b[k] == y;
      assert (a + b)[|a| + k] == y;
    } else {
      assert y in a;
      var j :| 0 <= j < |a| && a[j] == y;
      assert (a + b)[j] == y;
    }
  }

  lemma {:induction false} OnePingAppend(live: seq<Entry>, adds: seq<Entry>)
    requires OnePing(live)
    requires forall x | x in adds :: !x.callback.PingSock?
    ensures OnePing(live + adds)
  {
    assert forall k | 0 <= k < |adds| :: adds[k] in adds && !adds[k].callback.PingSock?;
  }

  lemma {:induction false} OnePingMore(live: seq<Entry>, x: Entry)
    requires OnePing(live) && x.callback.PingSock?
    requires forall y | y in live && y.callback.PingSock? :: y.arg != x.arg
    ensures OnePing(live + [x])
  {
  }

  // ----- Each step

  /** The drained table is what was live. */
  lemma {:induction false} DrainIsLive(w: World)
    requires Sound(w)
    ensures Drained(w.loop.table, w.loop.toRemove) == Live(w)
    ensures Distinct(Live(w)) && Fds(Live(w)) <= w.loop.open
  {
    var old_, new_ := w.loop.table[..w.n], w.loop.table[w.n..];
    assert w.loop.table == old_ + new_;
    DrainTakesStale(old_, new_, w.loop.toRemove);
    WithoutFds(old_, Numbers(w.loop.toRemove));
    var kept := Without(old_, Numbers(w.loop.toRemove));
    FdsConcat(kept, new_);
    DistinctConcat(kept, new_);
  }

  /** A new iteration begins with a settled table. */
  lemma {:induction false} FreshRound(table: seq<Entry>, open: set<int>, w: World)
    requires Distinct(table) && Fds(table) <= open
    requires w.loop == Loop(table, [], open) && w.n == |table| && w.next <= w.n
    ensures Sound(w) && Live(w) == table
  {
    assert table[..|table|] == table && table[|table|..] == [];
    assert table + [] == table;
    assert Numbers([]) == {};
    WithoutAbsent(table, {});
  }

  lemma {:induction false} FdsSnoc(t: seq<Entry>, x: Entry)
    ensures Fds(t + [x]) == Fds(t) + {x.fd}
  {
    FdsConcat(t, [x]);
    assert [x][0] == x;
    assert Fds([x]) == {x.fd};
  }

  /** A callback leaves the table as it was, and adds to it. */
  lemma {:induction false} CalledTable(w: World, e: Effect<Callback, string>, max: nat)
    requires w.next < w.n <= |w.loop.table|
    ensures var c := Called(w.loop, w.loop.table[w.next], e, max);
            var taken := e.adds[..Taken(w.loop.table, e.adds, max)];
            && c.table == w.loop.table[..w.n] + (w.loop.table[w.n..] + taken)
            && c.table[..w.n] == w.loop.table[..w.n] && c.table[w.n..] == w.loop.table[w.n..] + taken
            && c.table[..w.next + 1] == w.loop.table[..w.next] + [w.loop.table[w.next]]
  {
    hide AddAll, Fds;
    var c := Called(w.loop, w.loop.table[w.next], e, max);
    assert c.table == w.loop.table + e.adds[..Taken(w.loop.table, e.adds, max)];
  }

  /** After a callback of the entry at next, the loop is sound. */
  lemma {:induction false} CallSound(w: World, e: Effect<Callback, string>, max: nat)
    requires Sound(w) && w.next < w.n && Unused(w.loop.open, e.adds) && !(e.schedulesOwn && e.fails)
    ensures var x := w.loop.table[w.next];
            var c := Called(w.loop, x, e, max);
            var taken := e.adds[..Taken(w.loop.table, e.adds, max)];
            && c.table[..w.n] == w.loop.table[..w.n] && c.table[w.n..] == w.loop.table[w.n..] + taken
            && Sound(w.(loop := c, next := w.next + 1))
  {
    hide Unused, Underway, Fds, Taken, Called, Distinct;
    var x := w.loop.table[w.next];
    NextIsUnscheduled(w);
    UnderwayCall(w.loop.table[..w.n], w.loop.table[w.n..], w.loop, x, e, max);
    StackAfterCall(w.loop, x, e, max);
    CalledTable(w, e, max);
    FdsSnoc(w.loop.table[..w.next], x);
  }

  /** What is live loses the entry called if it was dropped or scheduled, and
      gains what was registered. */
  lemma {:induction false} CallStep(w: World, e: Effect<Callback, string>, max: nat)
    requires Sound(w) && w.next < w.n && Unused(w.loop.open, e.adds) && !(e.schedulesOwn && e.fails)
    ensures var x := w.loop.table[w.next];
            var w' := w.(loop := Called(w.loop, x, e, max), next := w.next + 1);
            var taken := e.adds[..Taken(w.loop.table, e.adds, max)];
            && Sound(w') && x in Without(w.loop.table[..w.n], Numbers(w.loop.toRemove))
            && Live(w') ==
               (if e.schedulesOwn || e.fails
                then Without(Without(w.loop.table[..w.n], Numbers(w.loop.toRemove)), {x.fd}) + w.loop.table[w.n..]
                else Live(w)) + taken
  {
    hide Unused, Underway;
    var old_, new_, x := w.loop.table[..w.n], w.loop.table[w.n..], w.loop.table[w.next];
    var c := Called(w.loop, x, e, max);
    var taken := e.adds[..Taken(w.loop.table, e.adds, max)];
    CallSound(w, e, max);
    NextIsUnscheduled(w);
    StackAfterCall(w.loop, x, e, max);
    hide Called, Sound;
    WithoutTwice(old_, Numbers(w.loop.toRemove), {x.fd});
    Associate(Without(old_, Numbers(c.toRemove)), new_, taken);
  }

  lemma {:induction false} Associate(a: seq<Entry>, b: seq<Entry>, c: seq<Entry>)
    ensures a + (b + c) == (a + b) + c
  {
  }

  lemma {:induction false} WithoutKeeps(t: seq<Entry>, x: Entry, fds: set<int>)
    requires x in t && x.fd !in fds
    ensures x in Without(t, fds)
  {
    if t[0] != x {
      WithoutKeeps(t[1..], x, fds);
    }
  }

  lemma {:induction false} NextIsUnscheduled(w: World)
    requires Sound(w) && w.next < w.n
    ensures var x := w.loop.table[w.next];
            && x in w.loop.table[..w.n] && x.fd !in w.loop.toRemove
            && x in Without(w.loop.table[..w.n], Numbers(w.loop.toRemove))
  {
    var old_, x := w.loop.table[..w.n], w.loop.table[w.next];
    assert old_[w.next] == x;
    forall i | 0 <= i < w.next ensures w.loop.table[..w.next][i].fd != x.fd {
      assert old_[i] == w.loop.table[i];
    }
    assert x.fd !in Numbers(w.loop.toRemove);
    WithoutKeeps(old_, x, Numbers(w.loop.toRemove));
  }

  /** A ping's registration goes, answered or not. */
  lemma {:induction false} PingGoes(w: World, e: Effect<Callback, string>, max: nat)
    requires Inv(w) && w.next < w.n && w.loop.table[w.next].callback.PingSock?
    requires e == Effect([], true, false) || e == Effect([], false, true)
    ensures var x := w.loop.table[w.next];
            var w' := w.(loop := Called(w.loop, x, e, max), next := w.next + 1);
            && Sound(w') && OnePing(Live(w')) && x in Live(w)
            && (forall y | y in Live(w') && y.callback.PingSock? :: y in Live(w) && y.arg != x.arg)
  {
    var x := w.loop.table[w.next];
    var w' := w.(loop := Called(w.loop, x, e, max), next := w.next + 1);
    var kept, new_ := Without(w.loop.table[..w.n], Numbers(w.loop.toRemove)), w.loop.table[w.n..];
    CallStep(w, e, max);
    assert Live(w') == Without(kept, {x.fd}) + new_;
    OnePingWithout(kept, new_, {x.fd});
    forall y | y in Live(w') && y.callback.PingSock? ensures y in Live(w) && y.arg != x.arg {
      RemovedPing(kept, new_, x, y);
    }
  }

  /** Any other callback: pings are neither added nor answered. */
  lemma {:induction false} ServedStep(w: World, e: Effect<Callback, string>, max: nat)
    requires Inv(w) && w.next < w.n && Unused(w.loop.open, e.adds) && !e.schedulesOwn
    requires forall i | 0 <= i < |e.adds| :: !e.adds[i].callback.PingSock?
    ensures var w' := w.(loop := Called(w.loop, w.loop.table[w.next], e, max), next := w.next + 1);
            && Sound(w') && OnePing(Live(w'))
            && (forall y | y in Live(w') && y.callback.PingSock? :: y in Live(w))
  {
    var x := w.loop.table[w.next];
    var w' := w.(loop := Called(w.loop, x, e, max), next := w.next + 1);
    var kept, new_ := Without(w.loop.table[..w.n], Numbers(w.loop.toRemove)), w.loop.table[w.n..];
    var taken := e.adds[..Taken(w.loop.table, e.adds, max)];
    CallStep(w, e, max);
    OnePingWithout(kept, new_, {x.fd});
    OnePingAppend(Without(kept, {x.fd}) + new_, taken);
    OnePingAppend(Live(w), taken);
  }

  /** Registering one more descriptor between callbacks. */
  lemma {:induction false} AddStep(w: World, x: Entry, max: nat)
    requires Sound(w) && x.fd !in w.loop.open
    ensures var w' := w.(loop := Loop(AddAll(w.loop.table, [x], max), w.loop.toRemove, w.loop.open + Fds([x])));
            Sound(w') && (Live(w') == Live(w) + [x] || Live(w') == Live(w))
  {
    var old_, new_ := w.loop.table[..w.n], w.loop.table[w.n..];
    assert [x][0] == x;
    UnderwayAdd(old_, new_, w.loop, [x], max);
    var taken := [x][..Taken(w.loop.table, [x], max)];
    var t := AddAll(w.loop.table, [x], max);
    assert t == old_ + (new_ + taken);
    assert t[..w.n] == old_ && t[w.n..] == new_ + taken && t[..w.next] == w.loop.table[..w.next];
    Associate(Without(old_, Numbers(w.loop.toRemove)), new_, taken);
    assert taken == [] || taken == [x];
    assert Live(w) + [] == Live(w);
  }

  lemma {:induction false} PingStep(w: World, node: string, connected: Option<int>, now: int, max: nat)
    requires Inv(w) && Enabled(w, Ping(node, connected, now))
    ensures Inv(Pinged(w, node, connected, now, max))
  {
    if w.waiting[node] == 0 && connected.Some? {
      var x := Reg(connected.value, PING_EVENTS, PingSock, node);
      AddStep(w, x, max);
      OnePingMore(Live(w), x);
    }
  }

  lemma {:induction false} NotReadyStep(w: World)
    requires Sound(w) && w.next < w.n
    ensures Sound(w.(next := w.next + 1))
  {
    var t := w.loop.table;
    assert t[..w.next + 1] == t[..w.next] + [t[w.next]];
    FdsConcat(t[..w.next], [t[w.next]]);
  }

  /** Soundness and what is live do not depend on the ping states. */
  lemma {:induction false} SameLoop(w: World, w': World)
    requires w.n <= |w.loop.table|
    requires w'.loop == w.loop && w'.n == w.n && w'.next == w.next
    ensures Live(w') == Live(w) && (Sound(w) ==> Sound(w'))
  {
  }

  lemma {:induction false} PongStep(w: World, max: nat)
    requires Inv(w) && Enabled(w, Pong)
    ensures Inv(Do(w, Pong, max))
  {
    var e := Effect([], true, false);
    var x := w.loop.table[w.next];
    var w' := w.(loop := Called(w.loop, x, e, max), next := w.next + 1);
    PingGoes(w, e, max);
    SameLoop(w', Do(w, Pong, max));
    hide Sound, Live, OnePing, Called;
    assert x.arg in w.waiting && x.arg !in w.failed;
  }

  lemma {:induction false} NoPongStep(w: World, max: nat)
    requires Inv(w) && Enabled(w, NoPong)
    ensures Inv(Do(w, NoPong, max))
  {
    var e := Effect([], false, true);
    var x := w.loop.table[w.next];
    var w' := w.(loop := Called(w.loop, x, e, max), next := w.next + 1);
    PingGoes(w, e, max);
    SameLoop(w', Do(w, NoPong, max));
    hide Sound, Live, OnePing, Called;
    assert x.arg in w.waiting && w.waiting[x.arg] != 0;
  }

  lemma {:induction false} HelloStep(w: World, e: Effect<Callback, string>, hello: Option<string>, max: nat)
    requires Inv(w) && Enabled(w, Served(e, hello))
    ensures Inv(Do(w, Served(e, hello), max))
  {
    var w' := w.(loop := Called(w.loop, w.loop.table[w.next], e, max), next := w.next + 1);
    ServedStep(w, e, max);
    SameLoop(w', Do(w, Served(e, hello), max));
    hide Sound, Live, OnePing, Called;
  }

  /** Every step keeps the invariant. */
  lemma {:induction false} StepKeepsInv(w: World, step: Step, max: nat)
    requires Inv(w) && Enabled(w, step)
    ensures Inv(Do(w, step, max))
  {
    match step
    case Pong => PongStep(w, max);
    case NoPong => NoPongStep(w, max);
    case Served(e, hello) => HelloStep(w, e, hello, max);
    case Ping(node, connected, now) => PingStep(w, node, connected, now, max);
    case NotReady => NotReadyStep(w);
    case Poll =>
      DrainIsLive(w);
      FreshRound(w.loop.table, w.loop.open, Do(w, step, max));
    case Drain =>
      DrainIsLive(w);
      FreshRound(Live(w), w.loop.open, Do(w, step, max));
  }

  // ----- Every run

  ghost predicate Enables(w: World, steps: seq<Step>, max: nat)
    decreases |steps|
  {
    steps == [] ||
    (w.n <= |w.loop.table| && Enabled(w, steps[0]) && Enables(Do(w, steps[0], max), steps[1..], max))
  }

  function Run(w: World, steps: seq<Step>, max: nat): World
    requires Enables(w, steps, max)
    decreases |steps|
  {
    if steps == [] then w else Run(Do(w, steps[0], max), steps[1..], max)
  }

  /** Before the first iteration: the listening socket, no pings yet. */
  ghost predicate Initial(w: World) {
    && Distinct(w.loop.table) && Fds(w.loop.table) <= w.loop.open && w.loop.toRemove == []
    && w.n == w.next == |w.loop.table| && w.failed == {}
    && (forall x | x in w.loop.table :: !x.callback.PingSock?)
  }

  /** In every run at most one ping per node is registered and not already on its
      way out, a registered ping's pong is awaited, and a node that failed once
      is awaited for ever, so that `ping_node` passes it over. */
  lemma {:induction false} PingsInEveryRun(w: World, steps: seq<Step>, max: nat)
    requires Initial(w) && Enables(w, steps, max)
    ensures Inv(Run(w, steps, max))
    ensures var w' := Run(w, steps, max);
            forall f, connected, now | f in w'.failed && f in w'.waiting ::
              Pinged(w', f, connected, now, max) == w'
  {
    FreshRound(w.loop.table, w.loop.open, w);
    InvForever(w, steps, max);
  }

  lemma {:induction false} InvForever(w: World, steps: seq<Step>, max: nat)
    requires Inv(w) && Enables(w, steps, max)
    ensures Inv(Run(w, steps, max))
    decreases |steps|
  {
    if steps != [] {
      StepKeepsInv(w, steps[0], max);
      InvForever(Do(w, steps[0], max), steps[1..], max);
    }
  }

  // ----- What each step does to waits and registrations

  /** When each step can happen: the next entry may be passed over, or called with
      any result its kind of callback has; between iterations the table is drained
      and polled, and before the drain any known node may come up for a ping. */
  lemma {:induction false} WhatCanHappen(w: World, step: Step)
    requires Inv(w)
    ensures Enabled(w, NotReady) <==> w.next < w.n
    ensures Enabled(w, Pong) <==> w.next < w.n && w.loop.table[w.next].callback.PingSock?
    ensures Enabled(w, NoPong) <==> Enabled(w, Pong)
    ensures w.next < w.n && !Enabled(w, Pong) ==> Enabled(w, Served(Effect([], false, false), None))
    ensures step.Served? ==>
              (Enabled(w, step) <==>
               && w.next < w.n && !w.loop.table[w.next].callback.PingSock?
               && !step.e.schedulesOwn && Distinct(step.e.adds) && Fds(step.e.adds) !! w.loop.open
               && forall r | r in step.e.adds :: !r.callback.PingSock?)
    ensures step.Ping? && step.now > 0 ==>
              (Enabled(w, step) <==>
               w.next == w.n && step.node in w.waiting &&
               (step.connected.Some? ==> step.connected.value !in w.loop.open))
    ensures Enabled(w, Drain) <==> w.next == w.n
    ensures Enabled(w, Poll) <==> w.next == w.n && w.loop.toRemove == []
  {
    assert Fds<Callback, string>([]) == {};
    if step.Served? {
      assert (forall r | r in step.e.adds :: !r.callback.PingSock?) ==>
        forall i | 0 <= i < |step.e.adds| :: step.e.adds[i] in step.e.adds && !step.e.adds[i].callback.PingSock?;
    }
  }

  /** The waits after each step, and who has failed: an answered ping ends its
      node's wait, a missing answer does not; a node that said hello has no wait. */
  lemma {:induction false} StepWaits(w: World, step: Step, max: nat, y: string)
    requires Inv(w) && Enabled(w, step) && y in w.waiting
    ensures var w' := Do(w, step, max);
            && y in w'.waiting
            && match step
               case Pong =>
                 && w'.failed == w.failed
                 && w'.waiting[y] == if y == w.loop.table[w.next].arg then 0 else w.waiting[y]
               case NoPong => w'.failed == w.failed + {w.loop.table[w.next].arg} && w'.waiting == w.waiting
               case Ping(node, connected, now) =>
                 && w'.failed == (if w.waiting[node] == 0 && connected.None? then w.failed + {node} else w.failed)
                 && w'.waiting[y] == if y != node || w.waiting[y] != 0 then w.waiting[y]
                                     else if connected.Some? then now else -1
               case _ => w'.failed == w.failed && w'.waiting[y] == w.waiting[y]
    ensures step.Served? && step.hello.Some? && step.hello.value !in w.waiting ==>
              Do(w, step, max).waiting == w.waiting[step.hello.value := 0]
  {
    hide Called, AddAll, Drained;
    if step.Pong? {
      PongStep(w, max);
    }
  }

  /** What each step does to the loop: a ping's descriptor is scheduled whether or
      not it was answered, but closed only if it was not. */
  lemma {:induction false} StepDescriptors(w: World, step: Step, max: nat)
    requires Inv(w) && Enabled(w, step)
    ensures var l, w' := w.loop, Do(w, step, max);
            match step
            case Poll => w'.loop == l && w'.n == |l.table| && w'.next == 0
            case NotReady => w' == w.(next := w.next + 1)
            case Pong =>
              && w'.loop == Loop(l.table, l.toRemove + [l.table[w.next].fd], l.open)
              && w'.n == w.n && w'.next == w.next + 1
            case NoPong =>
              && w'.loop == Loop(l.table, l.toRemove + [l.table[w.next].fd], l.open - {l.table[w.next].fd})
              && w'.n == w.n && w'.next == w.next + 1
            case Served(e, _) =>
              && w'.loop == Called(l, l.table[w.next], e, max) && w'.n == w.n && w'.next == w.next + 1
            case Ping(node, connected, _) =>
              && w'.n == w.n && w'.next == w.next && w'.loop.toRemove == l.toRemove
              && w'.loop.open == l.open + if w.waiting[node] == 0 && connected.Some? then {connected.value} else {}
            case Drain =>
              && w'.loop.table == Live(w) && w'.loop.toRemove == [] && w'.loop.open == l.open
              && w'.n == w'.next == |Live(w)|
  {
    hide AddAll;
    NothingAdded(w.loop.table, max);
    assert Fds<Callback, string>([]) == {};
    if step.Drain? {
      DrainIsLive(w);
    }
    if step.Ping? && step.connected.Some? {
      var x := Reg(step.connected.value, PING_EVENTS, PingSock, step.node);
      assert [x][0] == x;
      assert Fds([x]) == {x.fd};
    }
  }

  /** A node that is not awaited and that a connection reaches is awaited from now
      on, and its ping is registered while the table has room. */
  lemma {:induction false} PingRegisters(w: World, node: string, fd: int, now: int, max: nat)
    requires Inv(w) && Enabled(w, Ping(node, Some(fd), now)) && w.waiting[node] == 0
    ensures var w' := Do(w, Ping(node, Some(fd), now), max);
            && w'.waiting == w.waiting[node := now] && w'.failed == w.failed
            && w'.loop.open == w.loop.open + {fd} && w'.loop.toRemove == w.loop.toRemove
            && (|w.loop.table| < max ==>
                  && w'.loop.table == w.loop.table + [Reg(fd, PING_EVENTS, PingSock, node)]
                  && Live(w') == Live(w) + [Reg(fd, PING_EVENTS, PingSock, node)])
            && (|w.loop.table| >= max ==> w'.loop.table == w.loop.table && Live(w') == Live(w))
  {
    var x := Reg(fd, PING_EVENTS, PingSock, node);
    var w' := Do(w, Ping(node, Some(fd), now), max);
    assert [x][0] == x;
    assert Fds([x]) == {fd};
    assert w'.loop.table == if |w.loop.table| < max then w.loop.table + [x] else w.loop.table by {
      assert w.loop.table + [x][..0] == w.loop.table;
    }
    hide AddAll;
    var old_, new_ := w.loop.table[..w.n], w.loop.table[w.n..];
    if |w.loop.table| < max {
      assert (w.loop.table + [x])[..w.n] == old_ && (w.loop.table + [x])[w.n..] == new_ + [x];
      Associate(Without(old_, Numbers(w.loop.toRemove)), new_, [x]);
    }
  }

  /** Until it is pinged, a node that is not awaited stays so. */
  lemma {:induction false} FreeUntilPinged(w: World, steps: seq<Step>, max: nat, node: string)
    requires Inv(w) && Enables(w, steps, max) && node in w.waiting && w.waiting[node] == 0
    requires forall i | 0 <= i < |steps| :: !(steps[i].Ping? && steps[i].node == node)
    ensures var w' := Run(w, steps, max); Inv(w') && node in w'.waiting && w'.waiting[node] == 0
    decreases |steps|
  {
    hide Inv, Do, Enabled;
    if steps != [] {
      assert !(steps[0].Ping? && steps[0].node == node);
      StepWaits(w, steps[0], max, node);
      StepKeepsInv(w, steps[0], max);
      FreeUntilPinged(Do(w, steps[0], max), steps[1..], max, node);
    }
  }

  /** A node that has answered its ping, or has just said hello for the first
      time, is pinged in the next round that reaches it, whatever happens between. */
  lemma {:induction false} AnsweredIsPingedAgain(w: World, step: Step, steps: seq<Step>, max: nat,
                                           node: string, fd: int, now: int)
    requires Inv(w) && Enabled(w, step)
    requires if step.Pong? then w.loop.table[w.next].arg == node
             else step.Served? && step.hello == Some(node) && node !in w.waiting
    requires Enables(Do(w, step, max), steps, max)
    requires forall i | 0 <= i < |steps| :: !(steps[i].Ping? && steps[i].node == node)
    requires var w' := Run(Do(w, step, max), steps, max);
             w'.n <= |w'.loop.table| < max && Enabled(w', Ping(node, Some(fd), now))
    ensures var w' := Run(Do(w, step, max), steps, max);
            var w'' := Do(w', Ping(node, Some(fd), now), max);
            && w''.waiting == w'.waiting[node := now]
            && Live(w'') == Live(w') + [Reg(fd, PING_EVENTS, PingSock, node)]
  {
    StepKeepsInv(w, step, max);
    if step.Pong? {
      AnswerIsAwaited(w);
      StepWaits(w, step, max, node);
    } else {
      assert node in Do(w, step, max).waiting;
    }
    hide Inv, Do, Enabled, Live, Run;
    FreeUntilPinged(Do(w, step, max), steps, max, node);
    PingRegisters(Run(Do(w, step, max), steps, max), node, fd, now, max);
  }

  lemma {:induction false} AnswerIsAwaited(w: World)
    requires Inv(w) && Enabled(w, Pong)
    ensures w.loop.table[w.next].arg in w.waiting
  {
    NextIsUnscheduled(w);
    assert w.loop.table[w.next] in Live(w);
  }

  lemma {:induction false} RunConcat(w: World, a: seq<Step>, b: seq<Step>, max: nat)
    requires Enables(w, a, max) && Enables(Run(w, a, max), b, max)
    ensures Enables(w, a + b, max) && Run(w, a + b, max) == Run(Run(w, a, max), b, max)
    decreases |a|
  {
    hide Do, Enabled;
    if a == [] {
      assert a + b == b;
    } else {
      assert (a + b)[0] == a[0] && (a + b)[1..] == a[1..] + b;
      RunConcat(Do(w, a[0], max), a[1..], b, max);
    }
  }

  /** Passing over entries that are not ready. */
  lemma {:induction false} PassOver(w: World, k: nat, max: nat)
    requires w.next + k <= w.n <= |w.loop.table|
    ensures var steps := seq(k, _ => NotReady);
            Enables(w, steps, max) && Run(w, steps, max) == w.(next := w.next + k)
    decreases k
  {
    var steps := seq(k, _ => NotReady);
    if k > 0 {
      assert steps[1..] == seq(k - 1, _ => NotReady);
      PassOver(Do(w, NotReady, max), k - 1, max);
    }
  }

  /** The steps of one ping that is answered in the next iteration, k entries
      standing before its own. */
  function Cycle(node: string, fd: int, now: int, k: nat): seq<Step> {
    [Ping(node, Some(fd), now), Drain, Poll] + seq(k, _ => NotReady) + [Pong, Drain]
  }

  /** Up to the answer. */
  lemma {:induction false} PingedAndPolled(w: World, node: string, fd: int, now: int, max: nat)
    requires Inv(w) && Enabled(w, Ping(node, Some(fd), now)) && w.waiting[node] == 0 && |w.loop.table| < max
    ensures var k, x := |Live(w)|, Reg(fd, PING_EVENTS, PingSock, node);
            var steps := [Ping(node, Some(fd), now), Drain, Poll] + seq(k, _ => NotReady);
            && Enables(w, steps, max)
            && Run(w, steps, max) ==
               World(Loop(Live(w) + [x], [], w.loop.open + {fd}), k + 1, k, w.waiting[node := now], w.failed)
  {
    var k, x := |Live(w)|, Reg(fd, PING_EVENTS, PingSock, node);
    var ping, pass := Ping(node, Some(fd), now), seq(k, _ => NotReady);
    PingRegisters(w, node, fd, now, max);
    StepKeepsInv(w, ping, max);
    var w1 := Do(w, ping, max);
    assert w1.next == w1.n;
    hide Inv, Live, Drained, Pinged, Do, Enabled;
    DrainThenPoll(w1, max);
    OneStep(w, ping, [Drain, Poll], max);
    var w3 := Run(w1, [Drain, Poll], max);
    PassOver(w3, k, max);
    RunConcat(w, [ping] + [Drain, Poll], pass, max);
    assert [ping] + [Drain, Poll] == [ping, Drain, Poll];
  }

  lemma {:induction false} DrainThenPoll(w: World, max: nat)
    requires Inv(w) && w.next == w.n
    ensures Enables(w, [Drain, Poll], max)
    ensures Run(w, [Drain, Poll], max) ==
            World(Loop(Live(w), [], w.loop.open), |Live(w)|, 0, w.waiting, w.failed)
  {
    DrainIsLive(w);
    hide Inv, Live, Drained;
    var w1 := Do(w, Drain, max);
    LastStep(w1, Poll, max);
    OneStep(w, Drain, [Poll], max);
    assert [Drain] + [Poll] == [Drain, Poll];
  }

  lemma {:induction false} PingFacts(w: World, node: string, connected: Option<int>, now: int)
    requires Inv(w) && Enabled(w, Ping(node, connected, now))
    ensures w.n <= |w.loop.table| && node in w.waiting
  {
  }

  lemma {:induction false} OneStep(w: World, step: Step, more: seq<Step>, max: nat)
    requires w.n <= |w.loop.table| && Enabled(w, step) && Enables(Do(w, step, max), more, max)
    ensures Enables(w, [step] + more, max) && Run(w, [step] + more, max) == Run(Do(w, step, max), more, max)
  {
    hide Do, Enabled;
    assert ([step] + more)[1..] == more;
  }

  lemma {:induction false} LastStep(w: World, step: Step, max: nat)
    requires w.n <= |w.loop.table| && Enabled(w, step)
    ensures Enables(w, [step], max) && Run(w, [step], max) == Do(w, step, max)
  {
    hide Do, Enabled;
    assert [step][1..] == [];
  }

  /** A ping that is answered leaves the live registrations and all waits as they
      were, so that the next one can follow; but its descriptor, which was only
      scheduled for removal, stays open. */
  lemma {:induction false} PingCycle(w: World, node: string, fd: int, now: int, max: nat)
    requires Inv(w) && Enabled(w, Ping(node, Some(fd), now)) && w.waiting[node] == 0 && |w.loop.table| < max
    ensures var steps := Cycle(node, fd, now, |Live(w)|);
            && Enables(w, steps, max)
            && var w' := Run(w, steps, max);
               && Inv(w') && w'.next == w'.n && w'.loop.toRemove == []
               && w'.loop.table == Live(w) && Live(w') == Live(w)
               && w'.waiting == w.waiting && w'.failed == w.failed
               && w'.loop.open == w.loop.open + {fd}
  {
    hide Inv, Live, Do, Enabled, Run, Enables;
    PingFacts(w, node, Some(fd), now);
    var k, x := |Live(w)|, Reg(fd, PING_EVENTS, PingSock, node);
    var front := [Ping(node, Some(fd), now), Drain, Poll] + seq(k, _ => NotReady);
    PingedAndPolled(w, node, fd, now, max);
    var m := Run(w, front, max);
    InvForever(w, front, max);
    LastAnswered(m, Live(w), x, max);
    RunConcat(w, front, [Pong, Drain], max);
    assert w.waiting[node := now][node := 0] == w.waiting;
  }

  lemma {:induction false} LastAnswered(m: World, live: seq<Entry>, x: Entry, max: nat)
    requires Inv(m) && m.loop.table == live + [x] && m.loop.toRemove == [] && m.next == |live| && m.n == |live| + 1
    requires x.callback.PingSock?
    ensures Enables(m, [Pong, Drain], max)
    ensures var w' := Run(m, [Pong, Drain], max);
            && Inv(w') && w' == World(Loop(live, [], m.loop.open), |live|, |live|, m.waiting[x.arg := 0], m.failed)
            && Live(w') == live
  {
    var m1 := Do(m, Pong, max);
    assert m.loop.table[m.next] == x;
    StepKeepsInv(m, Pong, max);
    PongLast(m, live, x, max);
    DrainIsLive(m1);
    StepKeepsInv(m1, Drain, max);
    var m2 := Do(m1, Drain, max);
    DrainIsLive(m2);
    assert Drained(live, []) == live;
    hide Inv, Live, Drained, Called;
    LastStep(m1, Drain, max);
    OneStep(m, Pong, [Drain], max);
    assert [Pong] + [Drain] == [Pong, Drain];
  }

  /** Once its ping is answered, the last entry is the only one on its way out. */
  lemma {:induction false} PongLast(m: World, live: seq<Entry>, x: Entry, max: nat)
    requires Inv(m) && m.loop.table == live + [x] && m.loop.toRemove == [] && m.next == |live| && m.n == |live| + 1
    requires x.callback.PingSock?
    ensures var m1 := Do(m, Pong, max);
            && Live(m1) == live && m1.next == m1.n == |live| + 1 && m1.loop.open == m.loop.open
            && m1.waiting == m.waiting[x.arg := 0] && m1.failed == m.failed
  {
    var m1 := Do(m, Pong, max);
    assert m.loop.table[m.next] == x;
    NothingAdded(m.loop.table, max);
    assert m.loop.table[..m.n] == live + [x];
    assert m1.loop.table == live + [x] && m1.loop.table[..m.n] == live + [x] && m1.loop.table[m.n..] == [];
    OnlyLast(live, x);
    assert Numbers([] + [x.fd]) == {x.fd};
  }

  lemma {:induction false} OnlyLast(live: seq<Entry>, x: Entry)
    requires Distinct(live + [x])
    ensures Without(live + [x], {x.fd}) + [] == live
    decreases |live|
  {
    if live != [] {
      assert (live + [x])[1..] == live[1..] + [x];
      assert (live + [x])[0].fd != (live + [x])[|live|].fd;
      DistinctTail(live, x);
      OnlyLast(live[1..], x);
    } else {
      assert (live + [x])[1..] == [];
    }
  }

  lemma {:induction false} DistinctTail(live: seq<Entry>, x: Entry)
    requires live != [] && Distinct(live + [x])
    ensures Distinct(live[1..] + [x])
  {
    assert forall i | 0 <= i < |live[1..] + [x]| :: (live[1..] + [x])[i] == (live + [x])[i + 1];
  }

  // ----- The periodic task

  /** `ping_all_nodes` after k nodes. */
  function PingedAll(w: World, nodes: seq<string>, connects: seq<Option<int>>, now: int, k: nat, max: nat): (r: World)
    requires k <= |nodes| && k <= |connects|
    requires forall i | 0 <= i < |nodes| :: nodes[i] in w.waiting
    ensures r.waiting.Keys == w.waiting.Keys
  {
    if k == 0 then w
    else Pinged(PingedAll(w, nodes, connects, now, k - 1, max), nodes[k - 1], connects[k - 1], now, max)
  }

  /** After one round of pings every node without a wait has one: since now, or for
      ever if it could not be reached; the others' waits stay. */
  lemma {:induction false} AllArePinged(w: World, nodes: seq<string>, connects: seq<Option<int>>, now: int,
                                  k: nat, max: nat, i: nat)
    requires k <= |nodes| == |connects| && i < |nodes| && forall j | 0 <= j < |nodes| :: nodes[j] in w.waiting
    requires forall a, b | 0 <= a < b < |nodes| :: nodes[a] != nodes[b]
    ensures PingedAll(w, nodes, connects, now, k, max).waiting[nodes[i]] ==
            if i >= k || w.waiting[nodes[i]] != 0 then w.waiting[nodes[i]]
            else if connects[i].Some? then now else -1
    decreases k
  {
    if k > 0 {
      AllArePinged(w, nodes, connects, now, k - 1, max, i);
      assert i != k - 1 ==> nodes[i] != nodes[k - 1];
    }
  }

  lemma {:induction false} NothingAdded(table: seq<Entry>, max: nat)
    ensures AddAll(table, [], max) == table
  {
    assert table + [] == table;
  }
}
