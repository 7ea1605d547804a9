/** Who sends a push: the MAGIC_PUSH_NODE handler reads the sender's entry in the
    receiver's table, so the sender has to be known there. */
module GossipSenders {
  import opened Options
  import opened Gossip

  /** Whoever a push is addressed to knows its sender. */
  ghost predicate SendersKnown(n: Net)
    requires Shaped(n)
  {
    forall p, u | p in n.pushes && u in n.home && n.home[u] == p.to :: p.from in n.known[u]
  }

  lemma {:induction false} SendersKept(n: Net, n': Net)
    requires Shaped(n) && Shaped(n') && n'.home == n.home && SendersKnown(n) && n'.pushes <= n.pushes
    requires forall u | u in n.home :: n.known[u].Keys <= n'.known[u].Keys
    ensures SendersKnown(n')
  {
  }

  /** The receiver of a new push knows the introducer, in a full mesh. */
  lemma {:induction false} NewPushSender(n: Net, x: Name, b: Name, p: Push, u: Name)
    requires Safe(n) && AllKnow(n) && Enabled(n, HandleHello(x)) && n.phase[x] == Hello(b) && n.pushes == {}
    requires p in Pushed(n, b, Learn(n.known[b], x, n.home[x]), x, n.home[x])
    requires u in n.home && n.home[u] == p.to
    ensures p.from in n.known[u]
  {
    assert SafeNode(n, x) && SafeNode(n, b);
    var table := Learn(n.known[b], x, n.home[x]);
    var k :| k in table && table[k] == p.to;
    assert k == u;
    assert Hears(n, u) && Hears(n, b) && Knows(n, u, b);
  }

  lemma {:induction false} PushesOfHello(n: Net, x: Name)
    requires Enabled(n, HandleHello(x))
    ensures var n', b := Do(n, HandleHello(x)), n.phase[x].intro;
            && Shaped(n') && n'.home == n.home && n'.phase == n.phase[x := Answered(b)]
            && n'.known == n.known[b := Learn(n.known[b], x, n.home[x])]
            && n'.pushes == n.pushes + Pushed(n, b, Learn(n.known[b], x, n.home[x]), x, n.home[x])
  {
    hide Pushed;
  }

  lemma {:induction false} HelloKeepsSenders(n: Net, x: Name, b: Name)
    requires Safe(n) && AllKnow(n) && Enabled(n, HandleHello(x)) && n.phase[x] == Hello(b) && n.pushes == {}
    ensures Shaped(Do(n, HandleHello(x))) && SendersKnown(Do(n, HandleHello(x)))
  {
    hide Do, Safe, AllKnow, Pushed;
    var n' := Do(n, HandleHello(x));
    PushesOfHello(n, x);
    forall p, u | p in n'.pushes && u in n.home && n.home[u] == p.to ensures p.from in n'.known[u] {
      NewPushSender(n, x, b, p, u);
    }
  }

  lemma {:induction false} OthersKeepSenders(n: Net, step: Step)
    requires Shaped(n) && Enabled(n, step) && SendersKnown(n) && !step.HandleHello?
    ensures Shaped(Do(n, step)) && SendersKnown(Do(n, step))
  {
    hide SendersKnown;
    SendersKept(n, Do(n, step));
  }

  lemma {:induction false} StepKeepsSenders(n: Net, j: Option<Name>, step: Step)
    requires Safe(n) && Mesh(n, j) && SerialStep(n, step) && SendersKnown(n)
    ensures Shaped(Do(n, step)) && SendersKnown(Do(n, step))
  {
    hide Do, SendersKnown, SafeNode, TruePush, AllKnow;
    if step.HandleHello? {
      TheJoiner(n, j, step.x);
      HelloKeepsSenders(n, step.x, n.phase[step.x].intro);
    } else {
      OthersKeepSenders(n, step);
    }
  }

  lemma {:induction false} SendersInEveryRun(n: Net, steps: seq<Step>)
    requires Initial(n) && SerialRun(n, steps)
    ensures Shaped(Run(n, steps)) && SendersKnown(Run(n, steps))
    decreases |steps|
  {
    if steps != [] {
      var k := |steps| - 1;
      var j := MeshInEveryRun(n, steps[..k]);
      SendersInEveryRun(n, steps[..k]);
      hide Do, SendersKnown, Safe, Mesh, SerialStep;
      StepKeepsSenders(Run(n, steps[..k]), j, steps[k]);
    }
  }

  /** In every run of serial joins in which every push arrives, a push is
      delivered to a node that knows its sender, at the sender's own address. */
  lemma {:induction false} SenderIsKnown(n: Net, steps: seq<Step>, p: Push, y: Name)
    requires Initial(n) && SerialRun(n, steps) && Enables(n, steps) && Enabled(Run(n, steps), Deliver(p, y))
    ensures var m := Run(n, steps);
            p.from in m.known[y] && p.from in m.home && m.known[y][p.from] == m.home[p.from]
  {
    hide Run, Enables, SerialRun;
    SendersInEveryRun(n, steps);
    RunIsSafe(n, steps);
    assert SafeNode(Run(n, steps), y);
  }

  // ----- When a push is lost

  lemma {:induction false} OneMoreStep(n: Net, steps: seq<Step>, step: Step)
    requires Enables(n, steps) && Enabled(Run(n, steps), step)
    ensures Enables(n, steps + [step]) && Run(n, steps + [step]) == Do(Run(n, steps), step)
  {
    hide Do, Enabled;
    assert (steps + [step])[..|steps|] == steps;
  }

  /** The five steps of one join. */
  function Join(x: Name, b: Name): seq<Step> {
    [Dial(x, b), HandleHello(x), HelloReply(x), HandleList(x), ListReply(x)]
  }

  /** From m to m', x has joined through b. */
  ghost predicate JoinedBy(m: Net, m': Net, x: Name, b: Name) {
    && Shaped(m) && Shaped(m') && x in m.home && b in m.home && m'.home == m.home
    && m'.phase == m.phase[x := Listening]
    && var table := Learn(m.known[b], x, m.home[x]);
       && m'.known == m.known[b := table][x := Merge(Learn(m.known[x], b, m.home[b]), table, x)]
       && m'.pushes == m.pushes + Pushed(m, b, table, x, m.home[x])
  }

  /** After the first two steps. */
  ghost predicate GreetedTwo(m: Net, m': Net, x: Name, b: Name) {
    && Shaped(m) && Shaped(m') && x in m.home && b in m.home && x != b && m'.home == m.home
    && m'.phase == m.phase[x := Answered(b)]
    && var table := Learn(m.known[b], x, m.home[x]);
       && m'.known == m.known[b := table]
       && m'.pushes == m.pushes + Pushed(m, b, table, x, m.home[x])
  }

  lemma {:induction false} FirstTwo(m: Net, x: Name, b: Name)
    requires Enabled(m, Dial(x, b)) && x != b
    ensures var m1 := Do(m, Dial(x, b));
            Enabled(m1, HandleHello(x)) && GreetedTwo(m, Do(m1, HandleHello(x)), x, b)
  {
    assert LiveAddrs(Do(m, Dial(x, b))) == LiveAddrs(m);
  }

  lemma {:induction false} ThirdStep(m: Net, m2: Net, x: Name, b: Name)
    requires GreetedTwo(m, m2, x, b)
    ensures Enabled(m2, HelloReply(x))
    ensures var m3 := Do(m2, HelloReply(x));
            && m3 == m2.(phase := m2.phase[x := Asking(b)], known := m3.known)
            && m3.known == m2.known[x := Learn(m2.known[x], b, m2.home[b])]
  {
    hide Pushed, Merge, Learn;
  }

  lemma {:induction false} FourthStep(m2: Net, m3: Net, x: Name, b: Name)
    requires Shaped(m2) && Shaped(m3) && x in m2.home && b in m2.home && x != b
    requires m3 == m2.(phase := m2.phase[x := Asking(b)], known := m3.known)
    requires m3.known == m2.known[x := Learn(m2.known[x], b, m2.home[b])]
    ensures Enabled(m3, HandleList(x))
    ensures var m4 := Do(m3, HandleList(x));
            m4 == m2.(phase := m2.phase[x := Listed(b, m2.known[b])], known := m3.known, seen := m4.seen)
  {
    hide Learn, GreetedBy;
  }

  lemma {:induction false} LastStep(m: Net, m2: Net, m4: Net, x: Name, b: Name, known: map<Name, map<Name, Addr>>)
    requires GreetedTwo(m, m2, x, b) && known == m2.known[x := Learn(m2.known[x], b, m2.home[b])]
    requires m4 == m2.(phase := m2.phase[x := Listed(b, m2.known[b])], known := known, seen := m4.seen)
    ensures Enabled(m4, ListReply(x)) && JoinedBy(m, Do(m4, ListReply(x)), x, b)
  {
    hide Pushed, Merge, Learn;
  }

  /** A join as a run. */
  lemma {:induction false} JoinRun(n: Net, steps: seq<Step>, x: Name, b: Name)
    requires Enables(n, steps) && Enabled(Run(n, steps), Dial(x, b)) && x != b
    ensures Enables(n, steps + Join(x, b)) && JoinedBy(Run(n, steps), Run(n, steps + Join(x, b)), x, b)
  {
    hide Do, Enabled, Run, Enables, JoinedBy, Pushed, Learn;
    var m := Run(n, steps);
    var s1 := steps + [Dial(x, b)];
    var s2 := s1 + [HandleHello(x)];
    var s3 := s2 + [HelloReply(x)];
    var s4 := s3 + [HandleList(x)];
    FirstTwo(m, x, b);
    OneMoreStep(n, steps, Dial(x, b));
    OneMoreStep(n, s1, HandleHello(x));
    ThirdStep(m, Run(n, s2), x, b);
    OneMoreStep(n, s2, HelloReply(x));
    FourthStep(Run(n, s2), Run(n, s3), x, b);
    OneMoreStep(n, s3, HandleList(x));
    LastStep(m, Run(n, s2), Run(n, s4), x, b, Run(n, s3).known);
    OneMoreStep(n, s4, ListReply(x));
    assert s4 + [ListReply(x)] == steps + Join(x, b);
  }

  lemma {:induction false} PushedTo(n: Net, c: Name, table: map<Name, Addr>, y: Name, d: Name, a: Addr)
    requires Shaped(n) && y in n.home && n.phase[y].Listening? && y in table && table[y] == n.home[y]
    ensures Push(c, n.home[y], d, a) in Pushed(n, c, table, d, a)
  {
    assert n.home[y] in table.Values && n.home[y] in LiveAddrs(n);
  }

  lemma {:induction false} TrueEntry(n: Net, c: Name, y: Name)
    requires Safe(n) && c in n.home && y in n.known[c]
    ensures y != c && y in n.home && n.known[c][y] == n.home[y]
  {
    assert SafeNode(n, c);
  }

  /** A listening node that the introducer knows, but that does not know the
      introducer, is pushed to by a sender it does not know. */
  lemma {:induction false} UnknownSender(n: Net, c: Name, y: Name, d: Name)
    requires Safe(n) && c in n.home && y in n.home && d in n.home && d != y
    requires n.phase[d] == Hello(c) && n.phase[y].Listening?
    requires y in n.known[c] && c !in n.known[y]
    ensures var p := Push(c, n.home[y], d, n.home[d]);
            Enabled(n, HandleHello(d)) && Enabled(Do(n, HandleHello(d)), Deliver(p, y)) &&
            p.from !in Do(n, HandleHello(d)).known[y]
  {
    hide Do, SafeNode, TruePush, Injective, Pushed;
    TrueEntry(n, c, y);
    PushesOfHello(n, d);
    PushedTo(n, c, Learn(n.known[c], d, n.home[d]), y, d, n.home[d]);
  }

  /** Two joins through b, of which the second is news that y never gets; then d
      joins through the second. */
  function LossyRun(n: Net, b: Name, y: Name, c: Name, d: Name): seq<Step>
    requires y in n.home && c in n.home
  {
    [Start(b)] + Join(y, b) + Join(c, b) + [Lose(Push(b, n.home[y], c, n.home[c])), Dial(d, c)]
  }

  lemma {:induction false} FirstStarts(n: Net, b: Name)
    requires Initial(n) && b in n.home
    ensures Enables(n, [Start(b)])
    ensures var m := Run(n, [Start(b)]);
            && m.home == n.home && m.known == n.known && m.phase == n.phase[b := Listening] && Shaped(m)
  {
    OneMoreStep(n, [], Start(b));
    assert [] + [Start(b)] == [Start(b)];
  }

  /** After y's join through b: both listen and know each other. */
  lemma {:induction false} OneJoined(m: Net, m': Net, y: Name, b: Name)
    requires JoinedBy(m, m', y, b) && y != b && m.known[y] == map[] && m.known[b] == map[]
    ensures m'.known == m.known[y := map[b := m.home[b]]][b := map[y := m.home[y]]]
  {
    var table := map[y := m.home[y]];
    assert Learn(m.known[b], y, m.home[y]) == table;
    assert Merge(Learn(m.known[y], b, m.home[b]), table, y) == map[b := m.home[b]];
  }

  /** After c's join through b, which knows y: c knows y, and y is pushed to. */
  lemma {:induction false} TwoJoined(m: Net, m': Net, c: Name, b: Name, y: Name)
    requires JoinedBy(m, m', c, b) && c != b && y != b && y != c && y in m.home && m.phase[y].Listening?
    requires m.known[c] == map[] && m.known[b] == map[y := m.home[y]] && c !in m.known[y]
    ensures y in m'.known[c] && c !in m'.known[y] && Push(b, m.home[y], c, m.home[c]) in m'.pushes
  {
    var table := Learn(m.known[b], c, m.home[c]);
    assert table[y] == m.home[y] && m.home[y] in table.Values && m.home[y] in LiveAddrs(m);
    assert Push(b, m.home[y], c, m.home[c]) in Pushed(m, b, table, c, m.home[c]);
  }

  lemma {:induction false} LoseThenDial(m: Net, p: Push, d: Name, c: Name)
    requires Shaped(m) && p in m.pushes && d in m.home && c in m.home && d != c
    requires m.phase[d].Absent? && m.phase[c].Listening?
    ensures Enabled(m, Lose(p)) && Enabled(Do(m, Lose(p)), Dial(d, c))
    ensures var m' := Do(Do(m, Lose(p)), Dial(d, c));
            && m'.home == m.home && m'.known == m.known && m'.phase == m.phase[d := Hello(c)]
            && m'.pushes == m.pushes - {p}
  {
  }

  /** Once y and c have joined. */
  ghost predicate TwoIn(n: Net, m: Net, b: Name, y: Name, c: Name) {
    && Shaped(m) && m.home == n.home && y in m.home && c in m.home
    && m.phase[y].Listening? && m.phase[c].Listening?
    && (forall d | d in m.home && d != b && d != y && d != c :: m.phase[d].Absent?)
    && y in m.known[c] && c !in m.known[y] && Push(b, m.home[y], c, m.home[c]) in m.pushes
  }

  lemma {:induction false} OneIn(n: Net, b: Name, y: Name)
    requires Initial(n) && b in n.home && y in n.home && b != y
    ensures Enables(n, [Start(b)] + Join(y, b))
    ensures var m := Run(n, [Start(b)] + Join(y, b));
            && Shaped(m) && m.home == n.home && m.phase == n.phase[b := Listening][y := Listening]
            && m.known == n.known[y := map[b := n.home[b]]][b := map[y := n.home[y]]]
  {
    FirstStarts(n, b);
    hide Do, Run, Enables, Join, JoinedBy, Enabled;
    var m := Run(n, [Start(b)]);
    JoinRun(n, [Start(b)], y, b);
    var m' := Run(n, [Start(b)] + Join(y, b));
    OneJoined(m, m', y, b);
  }

  lemma {:induction false} SecondIn(n: Net, m: Net, m': Net, b: Name, y: Name, c: Name)
    requires Initial(n) && b in n.home && y in n.home && c in n.home && b != y && b != c && y != c
    requires Shaped(m) && m.home == n.home && m.phase == n.phase[b := Listening][y := Listening]
    requires m.known == n.known[y := map[b := n.home[b]]][b := map[y := n.home[y]]]
    requires JoinedBy(m, m', c, b)
    ensures TwoIn(n, m', b, y, c)
  {
    TwoJoined(m, m', c, b, y);
    hide JoinedBy;
  }

  lemma {:induction false} LossyRunEnds(n: Net, b: Name, y: Name, c: Name, d: Name)
    requires Initial(n) && b in n.home && y in n.home && c in n.home && d in n.home && Differ(b, y, c, d)
    ensures Enables(n, LossyRun(n, b, y, c, d))
    ensures var m := Run(n, LossyRun(n, b, y, c, d));
            && Shaped(m) && m.home == n.home && m.phase[d] == Hello(c) && m.phase[y].Listening?
            && y in m.known[c] && c !in m.known[y]
  {
    hide Do, Run, Enables, Join, JoinedBy;
    OneIn(n, b, y);
    var first := [Start(b)] + Join(y, b);
    var steps, p := first + Join(c, b), Push(b, n.home[y], c, n.home[c]);
    JoinRun(n, first, c, b);
    SecondIn(n, Run(n, first), Run(n, steps), b, y, c);
    LoseThenDial(Run(n, steps), p, d, c);
    OneMoreStep(n, steps, Lose(p));
    OneMoreStep(n, steps + [Lose(p)], Dial(d, c));
    assert steps + [Lose(p)] + [Dial(d, c)] == LossyRun(n, b, y, c, d);
  }

  predicate Differ(b: Name, y: Name, c: Name, d: Name) {
    b != y && b != c && b != d && y != c && y != d && c != d
  }

  /** A single lost push is enough: whatever four nodes, a run of serial joins
      with one loss ends in a push whose receiver does not know its sender. */
  lemma {:induction false} LostPushHidesSender(n: Net, b: Name, y: Name, c: Name, d: Name)
    requires Initial(n) && b in n.home && y in n.home && c in n.home && d in n.home && Differ(b, y, c, d)
    ensures var steps, p := LossyRun(n, b, y, c, d) + [HandleHello(d)], Push(c, n.home[y], d, n.home[d]);
            Enables(n, steps) && Enabled(Run(n, steps), Deliver(p, y)) && p.from !in Run(n, steps).known[y]
  {
    hide Do, Run, Enables, Enabled, LossyRun, Safe;
    var steps := LossyRun(n, b, y, c, d);
    LossyRunEnds(n, b, y, c, d);
    RunIsSafe(n, steps);
    UnknownSender(Run(n, steps), c, y, d);
    OneMoreStep(n, steps, HandleHello(d));
  }

}
