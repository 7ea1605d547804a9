/** Joins can always be completed: from any quiet network one more node can join
    through any that listens, until all of them know each other. */
module GossipJoins {
  import opened Options
  import opened Gossip
  import opened GossipSenders

  /** Somebody listens at the address of every push. */
  ghost predicate Deliverable(n: Net) {
    Shaped(n) && forall p | p in n.pushes :: exists y | y in n.home :: n.home[y] == p.to && n.phase[y].Listening?
  }

  lemma {:induction false} SerialSnoc(n: Net, steps: seq<Step>, step: Step)
    requires SerialRun(n, steps) && SerialStep(Run(n, steps), step)
    ensures SerialRun(n, steps + [step]) && Enables(n, steps + [step])
    ensures Run(n, steps + [step]) == Do(Run(n, steps), step)
  {
    hide Do, Enabled, Quiet;
    var all := steps + [step];
    assert all[..|steps|] == steps && all[|steps|] == step;
    IsEnabled(Run(n, steps), step);
    SerialIsRun(n, steps);
    OneMoreStep(n, steps, step);
  }

  lemma {:induction false} IsEnabled(n: Net, step: Step)
    requires SerialStep(n, step)
    ensures Enabled(n, step)
  {
  }

  lemma {:induction false} SerialIsRun(n: Net, steps: seq<Step>)
    requires SerialRun(n, steps)
    ensures Enables(n, steps)
  {
  }

  predicate GoesOn(step: Step) {
    !step.Lose? && !step.Dial? && !step.Start?
  }

  /** Steps that neither begin a join nor lose a push go on with a serial run. */
  lemma {:induction false} SerialMore(n: Net, steps: seq<Step>, more: seq<Step>)
    requires SerialRun(n, steps) && Enables(n, steps + more)
    requires forall i | 0 <= i < |more| :: GoesOn(more[i])
    ensures SerialRun(n, steps + more)
    decreases |more|
  {
    hide Do, Enabled, Run, Enables;
    if more == [] {
      assert steps + more == steps;
    } else {
      var k := |more| - 1;
      var all := steps + more;
      assert all[..|steps| + k] == steps + more[..k] && all[|steps| + k] == more[k];
      PrefixEnabled(n, all, |steps| + k);
      SerialMore(n, steps, more[..k]);
    }
  }

  lemma {:induction false} DeliverOne(n: Net, p: Push) returns (y: Name)
    requires Deliverable(n) && p in n.pushes
    ensures Enabled(n, Deliver(p, y)) && SerialStep(n, Deliver(p, y))
    ensures var n' := Do(n, Deliver(p, y));
            Deliverable(n') && n'.home == n.home && n'.phase == n.phase && n'.pushes == n.pushes - {p}
  {
    y :| y in n.home && n.home[y] == p.to && n.phase[y].Listening?;
    hide Learn;
    var n' := Do(n, Deliver(p, y));
    forall q | q in n'.pushes ensures exists z | z in n'.home :: n'.home[z] == q.to && n'.phase[z].Listening? {
      var z :| z in n.home && n.home[z] == q.to && n.phase[z].Listening?;
      assert n'.home[z] == q.to;
    }
  }

  /** All pushes that are under way can arrive. */
  lemma {:induction false} DeliverAll(n: Net, steps: seq<Step>) returns (more: seq<Step>)
    requires SerialRun(n, steps) && Enables(n, steps) && Deliverable(Run(n, steps))
    ensures SerialRun(n, steps + more) && Enables(n, steps + more)
    ensures var m, m' := Run(n, steps), Run(n, steps + more);
            Shaped(m') && m'.pushes == {} && m'.home == m.home && m'.phase == m.phase
    decreases |Run(n, steps).pushes|
  {
    hide Run, Do, Enabled, Enables, SerialRun, SerialStep;
    var m := Run(n, steps);
    if m.pushes == {} {
      more := [];
      assert steps + [] == steps;
    } else {
      var p :| p in m.pushes;
      var y := DeliverOne(m, p);
      SerialSnoc(n, steps, Deliver(p, y));
      more := DeliverAll(n, steps + [Deliver(p, y)]);
      assert steps + [Deliver(p, y)] + more == steps + ([Deliver(p, y)] + more);
      more := [Deliver(p, y)] + more;
    }
  }

  /** The pushes of a join go to nodes that listen. */
  lemma {:induction false} JoinDeliverable(m: Net, m': Net, x: Name, b: Name)
    requires JoinedBy(m, m', x, b) && m.pushes == {} && m.phase[x].Absent?
    ensures Deliverable(m')
  {
    hide Learn, Merge;
    forall p | p in m'.pushes ensures exists y | y in m'.home :: m'.home[y] == p.to && m'.phase[y].Listening? {
      assert p.to in LiveAddrs(m);
      var y :| y in m.home && m.phase[y].Listening? && m.home[y] == p.to;
      assert m'.home[y] == p.to;
    }
  }

  lemma {:induction false} DialIsSerial(m: Net, x: Name, b: Name)
    requires Quiet(m) && x in m.home && m.phase[x].Absent? && Hears(m, b)
    ensures SerialStep(m, Dial(x, b)) && Enabled(m, Dial(x, b)) && x != b && m.pushes == {}
  {
  }

  lemma {:induction false} QuietAgain(m: Net, m': Net, x: Name)
    requires Quiet(m) && x in m.home && Shaped(m') && m'.home == m.home && m'.pushes == {}
    requires m'.phase == m.phase[x := Listening]
    ensures Quiet(m')
  {
  }

  /** From every quiet network that serial joins lead to, any absent node can join
      through any that listens, after which the network is quiet again. */
  lemma {:induction false} EveryJoinCompletes(n: Net, steps: seq<Step>, x: Name, b: Name) returns (more: seq<Step>)
    requires SerialRun(n, steps) && Enables(n, steps) && Quiet(Run(n, steps))
    requires x in Run(n, steps).home && Run(n, steps).phase[x].Absent? && Hears(Run(n, steps), b)
    ensures SerialRun(n, steps + more) && Enables(n, steps + more) && Quiet(Run(n, steps + more))
    ensures var m, m' := Run(n, steps), Run(n, steps + more);
            m'.home == m.home && m'.phase == m.phase[x := Listening]
  {
    hide Run, Do, Enabled, Enables, SerialRun, SerialStep, Quiet, JoinedBy, Hears;
    var m := Run(n, steps);
    DialIsSerial(m, x, b);
    JoinRun(n, steps, x, b);
    JoinIsSerial(n, steps, x, b);
    var joined := steps + Join(x, b);
    JoinDeliverable(m, Run(n, joined), x, b);
    JoinedPhase(m, Run(n, joined), x, b);
    var rest := DeliverAll(n, joined);
    assert joined + rest == steps + (Join(x, b) + rest);
    more := Join(x, b) + rest;
    QuietAgain(m, Run(n, steps + more), x);
  }

  lemma {:induction false} JoinedPhase(m: Net, m': Net, x: Name, b: Name)
    requires JoinedBy(m, m', x, b)
    ensures m'.home == m.home && m'.phase == m.phase[x := Listening]
  {
  }

  lemma {:induction false} JoinIsSerial(n: Net, steps: seq<Step>, x: Name, b: Name)
    requires SerialRun(n, steps) && Enables(n, steps) && SerialStep(Run(n, steps), Dial(x, b))
    requires Enables(n, steps + Join(x, b))
    ensures SerialRun(n, steps + Join(x, b))
  {
    hide Run, Do, Enabled, Enables, SerialRun, SerialStep;
    SerialSnoc(n, steps, Dial(x, b));
    var rest := [HandleHello(x), HelloReply(x), HandleList(x), ListReply(x)];
    assert steps + Join(x, b) == (steps + [Dial(x, b)]) + rest;
    SerialMore(n, steps + [Dial(x, b)], rest);
  }

  // ----- Everyone joins

  lemma {:induction false} FirstIsSerial(n: Net, b: Name)
    requires Initial(n) && b in n.home
    ensures SerialRun(n, [Start(b)]) && Enables(n, [Start(b)]) && Quiet(Run(n, [Start(b)]))
    ensures Run(n, [Start(b)]).home == n.home && Run(n, [Start(b)]).phase == n.phase[b := Listening]
  {
    assert SerialRun(n, []) && Run(n, []) == n && Quiet(n);
    assert SerialStep(n, Start(b));
    SerialSnoc(n, [], Start(b));
    assert [] + [Start(b)] == [Start(b)];
  }

  /** b, and those of these nodes. */
  ghost predicate InNetwork(n: Net, m: Net, b: Name, names: set<Name>) {
    m.home == n.home && m.phase.Keys == n.home.Keys && b in names && names <= n.home.Keys &&
    forall x | x in n.home :: m.phase[x] == if x in names then Listening else Absent
  }

  /** Whatever nodes there are, serial joins through the first bring all of them in:
      then the network is quiet, and each knows the address of each other. */
  lemma {:induction false} EveryoneJoins(n: Net, b: Name, names: set<Name>) returns (steps: seq<Step>)
    requires Initial(n) && b in names && names <= n.home.Keys
    ensures SerialRun(n, steps) && Enables(n, steps) && Quiet(Run(n, steps)) && Shaped(Run(n, steps))
    ensures InNetwork(n, Run(n, steps), b, names)
    ensures var m := Run(n, steps);
            forall u, v | u in names && v in names && u != v :: v in m.known[u] && m.known[u][v] == m.home[v]
  {
    steps := JoinOneByOne(n, b, names);
    hide Run, Enables, SerialRun, Quiet, Initial;
    var m := Run(n, steps);
    QuietIsShaped(m);
    forall u, v | u in names && v in names && u != v ensures v in m.known[u] && m.known[u][v] == m.home[v] {
      SerialJoinsMakeFullMesh(n, steps, u, v);
    }
  }

  lemma {:induction false} QuietIsShaped(m: Net)
    requires Quiet(m)
    ensures Shaped(m)
  {
  }

  lemma {:induction false} OneOutside(n: Net, m: Net, b: Name, names: set<Name>, x: Name)
    requires InNetwork(n, m, b, names) && Quiet(m) && x in n.home && x !in names
    ensures x in m.home && m.phase[x].Absent? && Hears(m, b)
  {
  }

  lemma {:induction false} OneMoreInside(n: Net, m: Net, m': Net, b: Name, names: set<Name>, x: Name)
    requires InNetwork(n, m, b, names) && x in n.home
    requires m'.home == m.home && m'.phase == m.phase[x := Listening]
    ensures InNetwork(n, m', b, names + {x})
  {
  }

  lemma {:induction false} OnlyFirst(n: Net, m: Net, b: Name)
    requires Initial(n) && b in n.home && m.home == n.home && m.phase == n.phase[b := Listening]
    ensures InNetwork(n, m, b, {b})
  {
  }

  lemma {:induction false} JoinOneByOne(n: Net, b: Name, names: set<Name>) returns (steps: seq<Step>)
    requires Initial(n) && b in names && names <= n.home.Keys
    ensures SerialRun(n, steps) && Enables(n, steps) && Quiet(Run(n, steps))
    ensures InNetwork(n, Run(n, steps), b, names)
    decreases names
  {
    hide Run, Do, Enables, SerialRun, Quiet, Initial, InNetwork, Hears;
    if names == {b} {
      FirstIsSerial(n, b);
      steps := [Start(b)];
      OnlyFirst(n, Run(n, steps), b);
    } else {
      var x :| x in names && x != b;
      var before := JoinOneByOne(n, b, names - {x});
      OneOutside(n, Run(n, before), b, names - {x}, x);
      var more := EveryJoinCompletes(n, before, x, b);
      steps := before + more;
      OneMoreInside(n, Run(n, before), Run(n, steps), b, names - {x}, x);
      assert names - {x} + {x} == names;
    }
  }
}
