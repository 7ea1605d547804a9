/** Membership gossip: a node that joins says hello to one listening node, its
    introducer, which pushes the newcomer to everyone it knows; the newcomer then
    asks for the introducer's list and starts to listen. */
module Gossip {
  import opened Options

  type Name = string

  datatype Addr = Addr(ip: string, port: nat)

  /** Where a node is on its way into the network. */
  datatype Phase =
    | Absent
    | Hello(intro: Name)                          // hello sent
    | Answered(intro: Name)                       // hello handled, the reply is on its way
    | Asking(intro: Name)                         // reply received, list requested
    | Listed(intro: Name, list: map<Name, Addr>)  // list request handled
    | Listening

  /** A push on its way to an address; its preamble names the sender. */
  datatype Push = Push(from: Name, to: Addr, name: Name, addr: Addr)

  /** All nodes; and, as history: which hellos which introducer has handled, whose
      those were, who was dialled, and which hellos a node's introducer had
      handled when it answered the node's list request. */
  datatype Net = Net(
    home: map<Name, Addr>,
    phase: map<Name, Phase>,
    known: map<Name, map<Name, Addr>>,
    pushes: set<Push>,
    greeted: set<(Name, Name)>,
    said: set<Name>,
    dialled: set<Name>,
    seen: map<Name, set<Name>>)

  datatype Step =
    | Start(x: Name)               // a node without an introducer
    | Dial(x: Name, b: Name)
    | HandleHello(x: Name)
    | HelloReply(x: Name)
    | HandleList(x: Name)
    | ListReply(x: Name)
    | Deliver(p: Push, y: Name)
    | Lose(p: Push)

  // ----- The tables, as the handlers change them

  /** The MAGIC_HELLO handler and the first part of the bootstrap: one more node. */
  function Learn(known: map<Name, Addr>, x: Name, a: Addr): map<Name, Addr> {
    known[x := a]
  }

  /** The last part of the bootstrap: the list, without oneself. */
  function Merge(known: map<Name, Addr>, list: map<Name, Addr>, self: Name): map<Name, Addr> {
    known + (list - {self})
  }

  /** The addresses at which a node listens. */
  function LiveAddrs(n: Net): set<Addr>
    requires n.phase.Keys == n.home.Keys
  {
    set y | y in n.home && n.phase[y].Listening? :: n.home[y]
  }

  /** Pushes by b to every node it knows, at the address on record; only those to
      a listening address get a connection. */
  function Pushed(n: Net, b: Name, known: map<Name, Addr>, x: Name, a: Addr): set<Push>
    requires n.phase.Keys == n.home.Keys
  {
    set to | to in known.Values && to in LiveAddrs(n) :: Push(b, to, x, a)
  }

  // ----- The steps

  ghost predicate Shaped(n: Net) {
    n.phase.Keys == n.home.Keys && n.known.Keys == n.home.Keys
  }

  ghost predicate Enabled(n: Net, step: Step) {
    Shaped(n) &&
    match step
    case Start(x) => x in n.home && n.phase[x].Absent?
    case Dial(x, b) => x in n.home && b in n.home && n.phase[x].Absent? && n.phase[b].Listening?
    case HandleHello(x) => x in n.home && n.phase[x].Hello? && n.phase[x].intro in n.home
    case HelloReply(x) => x in n.home && n.phase[x].Answered? && n.phase[x].intro in n.home
    case HandleList(x) => x in n.home && n.phase[x].Asking? && n.phase[x].intro in n.home
    case ListReply(x) => x in n.home && n.phase[x].Listed?
    case Deliver(p, y) => p in n.pushes && y in n.home && n.home[y] == p.to && n.phase[y].Listening?
    case Lose(p) => p in n.pushes
  }

  /** Whose hello b has handled. */
  function GreetedBy(n: Net, b: Name): set<Name> {
    set g | g in n.greeted && g.1 == b :: g.0
  }

  function Do(n: Net, step: Step): Net
    requires Enabled(n, step)
  {
    match step
    case Start(x) => n.(phase := n.phase[x := Listening])
    case Dial(x, b) => n.(phase := n.phase[x := Hello(b)], dialled := n.dialled + {b})
    case HandleHello(x) =>
      var b := n.phase[x].intro;
      var table := Learn(n.known[b], x, n.home[x]);
      n.(phase := n.phase[x := Answered(b)], known := n.known[b := table],
         pushes := n.pushes + Pushed(n, b, table, x, n.home[x]), greeted := n.greeted + {(x, b)},
         said := n.said + {x})
    case HelloReply(x) =>
      var b := n.phase[x].intro;
      n.(phase := n.phase[x := Asking(b)], known := n.known[x := Learn(n.known[x], b, n.home[b])])
    case HandleList(x) =>
      var b := n.phase[x].intro;
      n.(phase := n.phase[x := Listed(b, n.known[b])], seen := n.seen[x := GreetedBy(n, b)])
    case ListReply(x) =>
      n.(phase := n.phase[x := Listening], known := n.known[x := Merge(n.known[x], n.phase[x].list, x)])
    case Deliver(p, y) =>
      n.(known := n.known[y := Learn(n.known[y], p.name, p.addr)], pushes := n.pushes - {p})
    case Lose(p) => n.(pushes := n.pushes - {p})
  }

  // ----- Safety, over every interleaving and with pushes lost

  ghost predicate Injective(home: map<Name, Addr>) {
    forall x, y | x in home && y in home && home[x] == home[y] :: x == y
  }

  /** x really said hello, to a node that handled it, or was chosen as introducer. */
  ghost predicate Vouched(n: Net, x: Name) {
    x in n.said || x in n.dialled
  }

  /** Every entry is the address of a node that was vouched for. */
  ghost predicate TrueTable(n: Net, t: map<Name, Addr>) {
    forall x | x in t :: x in n.home && t[x] == n.home[x] && Vouched(n, x)
  }

  ghost predicate TruePush(n: Net, p: Push) {
    && p.name in n.home && p.addr == n.home[p.name] && Vouched(n, p.name)
    && p.to != n.home[p.name]
    && p.from in n.home && (p.name, p.from) in n.greeted
  }

  /** What holds of the node y. */
  ghost predicate SafeNode(n: Net, y: Name) {
    && Shaped(n) && y in n.home
    && TrueTable(n, n.known[y]) && y !in n.known[y]
    && match n.phase[y]
       case Absent => y !in n.seen
       case Hello(b) => b in n.home && n.phase[b].Listening? && b in n.dialled
       case Answered(b) => b in n.home && n.phase[b].Listening? && b in n.dialled
       case Asking(b) => b in n.home && n.phase[b].Listening? && b in n.known[y]
       case Listed(b, list) =>
         && b in n.known[y] && TrueTable(n, list)
         && y in n.seen && n.seen[y] <= list.Keys
       case Listening => y in n.seen ==> n.seen[y] - {y} <= n.known[y].Keys
  }

  ghost predicate Safe(n: Net) {
    && Shaped(n) && Injective(n.home)
    && (forall y | y in n.home :: SafeNode(n, y))
    && (forall p | p in n.pushes :: TruePush(n, p))
    && (forall x, b | (x, b) in n.greeted :: b in n.home && x in n.known[b])
  }

  /** From n to n' nothing vouched for is forgotten and nobody stops listening. */
  ghost predicate Grows(n: Net, n': Net) {
    && Shaped(n) && Shaped(n') && n'.home == n.home
    && n.greeted <= n'.greeted && n.said <= n'.said && n.dialled <= n'.dialled
    && (forall b | b in n.home && n.phase[b].Listening? :: n'.phase[b].Listening?)
  }

  lemma {:induction false} TrueTableKept(n: Net, n': Net, t: map<Name, Addr>)
    requires Grows(n, n') && TrueTable(n, t)
    ensures TrueTable(n', t)
  {
  }

  /** A node that a step does not touch stays safe. */
  lemma {:induction false} UntouchedNode(n: Net, n': Net, y: Name)
    requires Grows(n, n') && y in n.home && SafeNode(n, y)
    requires n'.known[y] == n.known[y] && n'.phase[y] == n.phase[y]
    requires y in n'.seen <==> y in n.seen
    requires y in n.seen ==> n'.seen[y] == n.seen[y]
    ensures SafeNode(n', y)
  {
    TrueTableKept(n, n', n.known[y]);
    if n.phase[y].Listed? {
      TrueTableKept(n, n', n.phase[y].list);
    }
  }

  /** A listening node that learns about another stays safe. */
  lemma {:induction false} LearningNode(n: Net, n': Net, y: Name, x: Name)
    requires Grows(n, n') && y in n.home && SafeNode(n, y) && n.phase[y].Listening?
    requires x in n.home && x != y && Vouched(n', x)
    requires n'.known[y] == Learn(n.known[y], x, n.home[x]) && n'.phase[y] == n.phase[y] && n'.seen == n.seen
    ensures SafeNode(n', y)
  {
    TrueTableKept(n, n', n.known[y]);
  }

  lemma {:induction false} PushesKept(n: Net, n': Net)
    requires Grows(n, n') && Injective(n.home) && forall p | p in n.pushes :: TruePush(n, p)
    ensures forall p | p in n.pushes :: TruePush(n', p)
  {
  }

  lemma {:induction false} GreetedKept(n: Net, n': Net)
    requires Safe(n) && Grows(n, n') && n'.greeted == n.greeted
    requires forall y | y in n.home :: n.known[y].Keys <= n'.known[y].Keys
    ensures forall x, b | (x, b) in n'.greeted :: b in n'.home && x in n'.known[b]
  {
  }

  /** The steps of x's own way into the network. */
  predicate IsMove(step: Step) {
    !step.Deliver? && !step.Lose?
  }

  lemma {:induction false} MovedByIntroducer(n: Net, x: Name)
    requires Safe(n) && Enabled(n, HandleHello(x))
    ensures SafeNode(Do(n, HandleHello(x)), x)
  {
    var n' := Do(n, HandleHello(x));
    assert SafeNode(n, x);
    TrueTableKept(n, n', n.known[x]);
  }

  lemma {:induction false} MovedByList(n: Net, x: Name)
    requires Safe(n) && Enabled(n, HandleList(x))
    ensures SafeNode(Do(n, HandleList(x)), x)
  {
    var n', b := Do(n, HandleList(x)), n.phase[x].intro;
    assert SafeNode(n, x) && SafeNode(n, b);
    TrueTableKept(n, n', n.known[x]);
    TrueTableKept(n, n', n.known[b]);
  }

  /** A node that starts, or dials a listening node, knows what it knew. */
  lemma {:induction false} MovedByStart(n: Net, step: Step)
    requires Safe(n) && Enabled(n, step) && (step.Start? || step.Dial?)
    ensures SafeNode(Do(n, step), step.x)
  {
    hide TrueTable, TruePush, Injective;
    MoveFacts(n, step);
    assert SafeNode(n, step.x);
    TrueTableKept(n, Do(n, step), n.known[step.x]);
  }

  lemma {:induction false} MovedByReply(n: Net, x: Name)
    requires Safe(n) && Enabled(n, HelloReply(x))
    ensures SafeNode(Do(n, HelloReply(x)), x)
  {
    hide TruePush, Injective;
    MoveFacts(n, HelloReply(x));
    assert SafeNode(n, x);
    TrueTableKept(n, Do(n, HelloReply(x)), n.known[x]);
  }

  lemma {:induction false} MovedByMerge(n: Net, x: Name)
    requires Safe(n) && Enabled(n, ListReply(x))
    ensures SafeNode(Do(n, ListReply(x)), x)
  {
    hide SafeNode, TrueTable, Vouched;
    ListedNode(n, Do(n, ListReply(x)), x);
  }

  lemma {:induction false} ListedNode(n: Net, n': Net, x: Name)
    requires Grows(n, n') && x in n.home && SafeNode(n, x) && n.phase[x].Listed? && n'.phase[x] == Listening
    requires n'.known[x] == Merge(n.known[x], n.phase[x].list, x) && n'.seen == n.seen
    ensures SafeNode(n', x)
  {
    hide TrueTable;
    MergedTableIsTrue(n, n', n.known[x], n.phase[x].list, x);
  }

  lemma {:induction false} MergedTableIsTrue(n: Net, n': Net, known: map<Name, Addr>, list: map<Name, Addr>, x: Name)
    requires Grows(n, n') && TrueTable(n, known) && TrueTable(n, list)
    ensures TrueTable(n', Merge(known, list, x))
  {
    TrueTableKept(n, n', known);
    TrueTableKept(n, n', list);
  }

  lemma {:induction false} HelloFacts(n: Net, x: Name)
    requires Safe(n) && Enabled(n, HandleHello(x))
    ensures var n', b := Do(n, HandleHello(x)), n.phase[x].intro;
            && Grows(n, n') && n'.greeted == n.greeted + {(x, b)} && Vouched(n', x)
            && n.pushes <= n'.pushes
            && b in n.home && b != x && n.phase[b].Listening? && n'.phase == n.phase[x := Answered(b)]
            && n'.known == n.known[b := Learn(n.known[b], x, n.home[x])] && n'.seen == n.seen
  {
    assert SafeNode(n, x);
    var n', b := Do(n, HandleHello(x)), n.phase[x].intro;
    assert (x, b) in n'.greeted;
  }

  lemma {:induction false} SafeHandleHello(n: Net, x: Name)
    requires Safe(n) && Enabled(n, HandleHello(x))
    ensures Safe(Do(n, HandleHello(x)))
  {
    var n', b := Do(n, HandleHello(x)), n.phase[x].intro;
    hide TruePush, Pushed, SafeNode, Do, Vouched, Enabled;
    HelloFacts(n, x);
    PushesKept(n, n');
    NewPushes(n, x);
    GreetedMore(n, n', x, b);
    MovedByIntroducer(n, x);
    NodesAfterHello(n, n', x, b);
  }

  lemma {:induction false} NodesAfterHello(n: Net, n': Net, x: Name, b: Name)
    requires Grows(n, n') && x in n.home && b in n.home && x != b
    requires (forall y | y in n.home :: SafeNode(n, y)) && SafeNode(n', x) && Vouched(n', x)
    requires n.phase[b].Listening? && n'.phase == n.phase[x := Answered(b)]
    requires n'.known == n.known[b := Learn(n.known[b], x, n.home[x])] && n'.seen == n.seen
    ensures forall y | y in n.home :: SafeNode(n', y)
  {
    hide SafeNode, Vouched, Learn;
    forall y | y in n.home ensures SafeNode(n', y) {
      if y == b {
        LearningNode(n, n', y, x);
      } else if y != x {
        UntouchedNode(n, n', y);
      }
    }
  }

  lemma {:induction false} GreetedMore(n: Net, n': Net, x: Name, b: Name)
    requires Safe(n) && Grows(n, n') && n'.greeted == n.greeted + {(x, b)}
    requires b in n.home && x in n.home && n'.known == n.known[b := Learn(n.known[b], x, n.home[x])]
    ensures forall y, c | (y, c) in n'.greeted :: c in n'.home && y in n'.known[c]
  {
  }

  /** The pushes of a hello tell the truth, and none goes to the newcomer, who
      does not listen yet. */
  lemma {:induction false} NewPushes(n: Net, x: Name)
    requires Safe(n) && Enabled(n, HandleHello(x))
    ensures var n' := Do(n, HandleHello(x));
            forall p | p in n'.pushes && p !in n.pushes :: TruePush(n', p)
  {
    var n', b := Do(n, HandleHello(x)), n.phase[x].intro;
    assert (x, b) in n'.greeted;
    forall p | p in n'.pushes && p !in n.pushes ensures TruePush(n', p) {
      assert p.to in LiveAddrs(n);
    }
  }

  lemma {:induction false} MoveFacts(n: Net, step: Step)
    requires Enabled(n, step) && IsMove(step) && !step.HandleHello?
    ensures var n' := Do(n, step);
            && Grows(n, n') && n'.pushes == n.pushes && n'.greeted == n.greeted
            && (forall y | y in n.home :: n.known[y].Keys <= n'.known[y].Keys)
            && (forall y | y in n.home && y != step.x ::
                  && n'.phase[y] == n.phase[y] && n'.known[y] == n.known[y]
                  && (y in n'.seen <==> y in n.seen) && (y in n.seen ==> n'.seen[y] == n.seen[y]))
  {
  }

  /** A step that moves only one node. */
  lemma {:induction false} SafeMove(n: Net, step: Step)
    requires Safe(n) && Enabled(n, step) && IsMove(step) && !step.HandleHello?
    ensures Safe(Do(n, step))
  {
    var n' := Do(n, step);
    MoveFacts(n, step);
    hide Do, SafeNode, TruePush, Enabled;
    PushesKept(n, n');
    GreetedKept(n, n');
    match step {
      case HandleList(x) => MovedByList(n, x);
      case ListReply(x) => MovedByMerge(n, x);
      case HelloReply(x) => MovedByReply(n, x);
      case _ => MovedByStart(n, step);
    }
    forall y | y in n.home && y != step.x ensures SafeNode(n', y) {
      UntouchedNode(n, n', y);
    }
  }

  lemma {:induction false} DeliverFacts(n: Net, p: Push, y: Name)
    requires Enabled(n, Deliver(p, y))
    ensures var n' := Do(n, Deliver(p, y));
            && Grows(n, n') && n'.pushes <= n.pushes && n'.greeted == n.greeted
            && n'.phase == n.phase && n'.seen == n.seen
            && n'.known == n.known[y := Learn(n.known[y], p.name, p.addr)]
  {
  }

  lemma {:induction false} SafeDeliver(n: Net, p: Push, y: Name)
    requires Safe(n) && Enabled(n, Deliver(p, y))
    ensures Safe(Do(n, Deliver(p, y)))
  {
    hide Do, SafeNode;
    var n' := Do(n, Deliver(p, y));
    DeliverFacts(n, p, y);
    assert TruePush(n, p);
    PushesKept(n, n');
    GreetedKept(n, n');
    NodesAfterDelivery(n, n', y, p.name);
  }

  lemma {:induction false} NodesAfterDelivery(n: Net, n': Net, y: Name, x: Name)
    requires Grows(n, n') && y in n.home && x in n.home && x != y && n.phase[y].Listening? && Vouched(n', x)
    requires (forall z | z in n.home :: SafeNode(n, z)) && n'.phase == n.phase && n'.seen == n.seen
    requires n'.known == n.known[y := Learn(n.known[y], x, n.home[x])]
    ensures forall z | z in n.home :: SafeNode(n', z)
  {
    hide SafeNode, Vouched, Learn;
    forall z | z in n.home ensures SafeNode(n', z) {
      if z == y {
        LearningNode(n, n', y, x);
      } else {
        UntouchedNode(n, n', z);
      }
    }
  }

  lemma {:induction false} SafeLose(n: Net, p: Push)
    requires Safe(n) && Enabled(n, Lose(p))
    ensures Safe(Do(n, Lose(p)))
  {
    var n' := Do(n, Lose(p));
    PushesKept(n, n');
    GreetedKept(n, n');
    forall y | y in n.home ensures SafeNode(n', y) {
      UntouchedNode(n, n', y);
    }
  }

  lemma {:induction false} StepIsSafe(n: Net, step: Step)
    requires Safe(n) && Enabled(n, step)
    ensures Safe(Do(n, step))
  {
    hide Safe, Do, SafeNode;
    match step
    case HandleHello(x) => SafeHandleHello(n, x);
    case Deliver(p, y) => SafeDeliver(n, p, y);
    case Lose(p) => SafeLose(n, p);
    case _ => SafeMove(n, step);
  }

  // ----- Runs

  /** Nobody has started. */
  ghost predicate Initial(n: Net) {
    && Shaped(n) && Injective(n.home)
    && (forall y | y in n.home :: n.phase[y] == Absent && n.known[y] == map[])
    && n.pushes == {} && n.greeted == {} && n.said == {} && n.dialled == {} && n.seen == map[]
  }

  ghost predicate Enables(n: Net, steps: seq<Step>)
    decreases |steps|, 0
  {
    steps == [] ||
    var k := |steps| - 1;
    Enables(n, steps[..k]) && Enabled(Run(n, steps[..k]), steps[k])
  }

  function Run(n: Net, steps: seq<Step>): Net
    requires Enables(n, steps)
    decreases |steps|, 1
  {
    if steps == [] then n
    else var k := |steps| - 1; Do(Run(n, steps[..k]), steps[k])
  }

  lemma {:induction false} RunIsSafe(n: Net, steps: seq<Step>)
    requires Initial(n) && Enables(n, steps)
    ensures Safe(Run(n, steps))
    decreases |steps|
  {
    if steps != [] {
      var k := |steps| - 1;
      RunIsSafe(n, steps[..k]);
      StepIsSafe(Run(n, steps[..k]), steps[k]);
    }
  }

  lemma {:induction false} StepHistory(n: Net, step: Step, x: Name)
    requires Enabled(n, step)
    ensures x in Do(n, step).said <==> x in n.said || step == HandleHello(x)
    ensures x in Do(n, step).dialled <==> x in n.dialled || (step.Dial? && step.b == x)
  {
  }

  /** Vouched for are those whose hello a step of the run handled, and those whom
      a step dialled. */
  lemma {:induction false} VouchedIff(n: Net, steps: seq<Step>, x: Name)
    requires Initial(n) && Enables(n, steps)
    ensures Vouched(Run(n, steps), x) <==>
            exists i | 0 <= i < |steps| :: steps[i] == HandleHello(x) || (steps[i].Dial? && steps[i].b == x)
    decreases |steps|
  {
    hide Do, Enabled;
    if steps != [] {
      var k := |steps| - 1;
      VouchedIff(n, steps[..k], x);
      StepHistory(Run(n, steps[..k]), steps[k], x);
    }
  }

  /** In every run, whatever the interleaving and whichever pushes are lost:
      every table entry is the address of a node whose hello was handled or that
      was dialled, and no node lists itself. */
  lemma {:induction false} TablesTellTheTruth(n: Net, steps: seq<Step>, y: Name, x: Name)
    requires Initial(n) && Enables(n, steps)
    requires Shaped(Run(n, steps)) && y in Run(n, steps).home && x in Run(n, steps).known[y]
    ensures var m := Run(n, steps);
            x in m.home && x != y && m.known[y][x] == m.home[x]
    ensures exists i | 0 <= i < |steps| :: steps[i] == HandleHello(x) || (steps[i].Dial? && steps[i].b == x)
  {
    hide Run, Enables;
    RunIsSafe(n, steps);
    VouchedIff(n, steps, x);
    assert SafeNode(Run(n, steps), y);
  }

  lemma {:induction false} PrefixEnabled(n: Net, steps: seq<Step>, k: nat)
    requires Enables(n, steps) && k <= |steps|
    ensures Enables(n, steps[..k])
    ensures k < |steps| ==> Enabled(Run(n, steps[..k]), steps[k])
    ensures k < |steps| ==> Enables(n, steps[..k + 1]) && Run(n, steps[..k + 1]) == Do(Run(n, steps[..k]), steps[k])
    decreases |steps|
  {
    var j := |steps| - 1;
    if k == |steps| {
      assert steps[..k] == steps;
    } else if k == j {
      assert steps[..k + 1] == steps;
    } else {
      PrefixEnabled(n, steps[..j], k);
      assert steps[..j][..k] == steps[..k] && steps[..j][..k + 1] == steps[..k + 1];
    }
  }

  lemma {:induction false} GreetedStep(n: Net, step: Step)
    requires Enabled(n, step)
    ensures n.greeted <= Do(n, step).greeted
  {
  }

  lemma {:induction false} GreetedStays(n: Net, steps: seq<Step>, i: nat, g: (Name, Name))
    requires Enables(n, steps) && i <= |steps|
    requires Enables(n, steps[..i]) && g in Run(n, steps[..i]).greeted
    ensures g in Run(n, steps).greeted
    decreases |steps|
  {
    hide Do, Enabled;
    if i == |steps| {
      assert steps[..i] == steps;
    } else {
      var k := |steps| - 1;
      assert steps[..k][..i] == steps[..i];
      GreetedStays(n, steps[..k], i, g);
      GreetedStep(Run(n, steps[..k]), steps[k]);
    }
  }

  /** y's list request has been handled, after x's hello. */
  ghost predicate Informed(n: Net, y: Name, x: Name) {
    Shaped(n) && y in n.home && y in n.seen && x in n.seen[y] && (n.phase[y].Listed? || n.phase[y].Listening?)
  }

  lemma {:induction false} InformedStep(n: Net, step: Step, y: Name, x: Name)
    requires Enabled(n, step) && Informed(n, y, x)
    ensures Informed(Do(n, step), y, x)
  {
  }

  lemma {:induction false} InformedStays(n: Net, steps: seq<Step>, i: nat, y: Name, x: Name)
    requires Enables(n, steps) && i <= |steps|
    requires Enables(n, steps[..i]) && Informed(Run(n, steps[..i]), y, x)
    ensures Informed(Run(n, steps), y, x)
    decreases |steps|
  {
    hide Do, Informed;
    if i == |steps| {
      assert steps[..i] == steps;
    } else {
      var k := |steps| - 1;
      assert steps[..k][..i] == steps[..i];
      InformedStays(n, steps[..k], i, y, x);
      InformedStep(Run(n, steps[..k]), steps[k], y, x);
    }
  }

  lemma {:induction false} HelloRecorded(n: Net, x: Name, b: Name)
    requires Enabled(n, HandleHello(x)) && n.phase[x] == Hello(b)
    ensures (x, b) in Do(n, HandleHello(x)).greeted
  {
  }

  lemma {:induction false} ListInforms(n: Net, y: Name, x: Name, b: Name)
    requires Enabled(n, HandleList(y)) && n.phase[y] == Asking(b) && (x, b) in n.greeted
    ensures Informed(Do(n, HandleList(y)), y, x)
  {
    assert (x, b).0 in GreetedBy(n, b);
  }

  lemma {:induction false} InformedKnows(n: Net, y: Name, x: Name)
    requires Safe(n) && Informed(n, y, x)
    ensures n.phase[y].Listening? ==> x == y || x in n.known[y]
  {
    assert SafeNode(n, y);
  }

  /** The network before step i of a run. */
  ghost function At(n: Net, steps: seq<Step>, i: nat): Net
    requires Enables(n, steps) && i <= |steps|
  {
    PrefixEnabled(n, steps, i);
    Run(n, steps[..i])
  }

  /** At step i of a run, b handles x's hello. */
  ghost predicate HandlesHello(n: Net, steps: seq<Step>, i: nat, x: Name, b: Name)
    requires Enables(n, steps) && i < |steps|
  {
    var m := At(n, steps, i);
    steps[i] == HandleHello(x) && x in m.phase && m.phase[x] == Hello(b)
  }

  /** At step j of a run, b handles y's list request. */
  ghost predicate HandlesList(n: Net, steps: seq<Step>, j: nat, y: Name, b: Name)
    requires Enables(n, steps) && j < |steps|
  {
    var m := At(n, steps, j);
    steps[j] == HandleList(y) && y in m.phase && m.phase[y] == Asking(b)
  }

  lemma {:induction false} GreetedBefore(n: Net, steps: seq<Step>, i: nat, j: nat, x: Name, b: Name)
    requires Enables(n, steps) && i < j <= |steps| && HandlesHello(n, steps, i, x, b)
    ensures (x, b) in At(n, steps, j).greeted
  {
    hide Do, Run, Enables, Enabled;
    PrefixEnabled(n, steps, i);
    PrefixEnabled(n, steps, j);
    HelloRecorded(Run(n, steps[..i]), x, b);
    assert steps[..j][..i + 1] == steps[..i + 1];
    GreetedStays(n, steps[..j], i + 1, (x, b));
  }

  lemma {:induction false} InformedAfter(n: Net, steps: seq<Step>, j: nat, x: Name, y: Name, b: Name)
    requires Enables(n, steps) && j < |steps| && HandlesList(n, steps, j, y, b)
    requires (x, b) in At(n, steps, j).greeted
    ensures Informed(Run(n, steps), y, x)
  {
    hide Do, Run, Enables, Enabled, Informed;
    PrefixEnabled(n, steps, j);
    ListInforms(Run(n, steps[..j]), y, x, b);
    InformedStays(n, steps, j + 1, y, x);
  }

  /** If an introducer handles x's hello before y's list request, y ends up
      knowing x, whatever is lost and however the rest is interleaved. */
  lemma {:induction false} HelloBeforeList(n: Net, steps: seq<Step>, i: nat, j: nat, x: Name, y: Name, b: Name)
    requires Initial(n) && Enables(n, steps) && i < j < |steps|
    requires HandlesHello(n, steps, i, x, b) && HandlesList(n, steps, j, y, b)
    ensures var m := Run(n, steps);
            Shaped(m) && y in m.home && (m.phase[y].Listening? ==> x == y || x in m.known[y])
  {
    hide Do, Run, Enables, Enabled, Safe, At, HandlesHello, HandlesList;
    GreetedBefore(n, steps, i, j, x, b);
    InformedAfter(n, steps, j, x, y, b);
    RunIsSafe(n, steps);
    InformedKnows(Run(n, steps), y, x);
  }

  // ----- Full mesh, when joins are serial and nothing is lost

  /** Nothing is under way. */
  ghost predicate Quiet(n: Net) {
    Shaped(n) && n.pushes == {} && forall y | y in n.home :: n.phase[y].Absent? || n.phase[y].Listening?
  }

  /** A join begins only when the last one is over; no push is lost; only the
      first node starts without an introducer. */
  ghost predicate SerialStep(n: Net, step: Step) {
    && Enabled(n, step) && !step.Lose?
    && (step.Dial? || step.Start? ==> Quiet(n))
    && (step.Start? ==> forall y | y in n.home :: !n.phase[y].Listening?)
  }

  /** u knows v, or is about to be told. */
  ghost predicate Knows(n: Net, u: Name, v: Name)
    requires Shaped(n) && u in n.home && v in n.home
  {
    v in n.known[u] || exists b :: Push(b, n.home[u], v, n.home[v]) in n.pushes
  }

  ghost predicate Joining(n: Net, x: Name)
    requires Shaped(n) && x in n.home
  {
    !n.phase[x].Absent? && !n.phase[x].Listening?
  }

  ghost predicate Hears(n: Net, u: Name) {
    Shaped(n) && u in n.home && n.phase[u].Listening?
  }

  /** x's hello has reached everyone who listens, and its introducer knows them all. */
  ghost predicate Welcomed(n: Net, x: Name, b: Name)
    requires Shaped(n) && x in n.home
  {
    && (forall u | Hears(n, u) :: Knows(n, u, x))
    && b in n.home && (forall v | Hears(n, v) && v != b :: v in n.known[b])
  }

  /** Everyone who listens knows, or is about to know, everyone else who does. */
  ghost predicate AllKnow(n: Net)
    requires Shaped(n)
  {
    forall u, v | Hears(n, u) && Hears(n, v) && u != v :: Knows(n, u, v)
  }

  /** How far the joiner has got. */
  ghost predicate JoinerOk(n: Net, x: Name)
    requires Shaped(n) && x in n.home
  {
    match n.phase[x]
    case Hello(b) => n.pushes == {}
    case Answered(b) => Welcomed(n, x, b)
    case Asking(b) => Welcomed(n, x, b)
    case Listed(b, list) => Welcomed(n, x, b) && forall v | Hears(n, v) && v != b :: v in list
    case _ => false
  }

  /** Nobody but j is on its way into the network. */
  ghost predicate OnlyJoiner(n: Net, j: Option<Name>)
    requires Shaped(n)
  {
    forall y | y in n.home && j != Some(y) :: !Joining(n, y)
  }

  ghost predicate Mesh(n: Net, j: Option<Name>) {
    && Shaped(n) && OnlyJoiner(n, j) && AllKnow(n)
    && (j.Some? ==> j.value in n.home && JoinerOk(n, j.value))
  }

  /** From n to n' nobody starts to listen, and no news is lost. */
  ghost predicate NoNews(n: Net, n': Net) {
    && Shaped(n) && Shaped(n') && n'.home == n.home
    && (forall u | Hears(n', u) :: Hears(n, u))
    && (forall u, v | u in n.home && v in n.home && Knows(n, u, v) :: Knows(n', u, v))
  }

  lemma {:induction false} NoNewsMore(n: Net, n': Net)
    requires Shaped(n) && Shaped(n') && n'.home == n.home
    requires forall u | Hears(n', u) :: Hears(n, u)
    requires n.pushes <= n'.pushes && forall u | u in n.home :: n.known[u].Keys <= n'.known[u].Keys
    ensures NoNews(n, n')
  {
  }

  lemma {:induction false} AllKnowKept(n: Net, n': Net)
    requires NoNews(n, n') && AllKnow(n)
    ensures AllKnow(n')
  {
  }

  lemma {:induction false} TheJoiner(n: Net, j: Option<Name>, x: Name)
    requires Mesh(n, j) && x in n.home && Joining(n, x)
    ensures j == Some(x) && JoinerOk(n, x)
  {
  }

  lemma {:induction false} MeshDial(n: Net, j: Option<Name>, x: Name, b: Name)
    requires Mesh(n, j) && SerialStep(n, Dial(x, b))
    ensures Mesh(Do(n, Dial(x, b)), Some(x))
  {
    var n' := Do(n, Dial(x, b));
    NoNewsMore(n, n');
    hide Knows;
    AllKnowKept(n, n');
  }

  lemma {:induction false} MeshStart(n: Net, j: Option<Name>, x: Name)
    requires Mesh(n, j) && SerialStep(n, Start(x))
    ensures Mesh(Do(n, Start(x)), None)
  {
    hide Knows;
  }

  /** The introducer knows everyone who listens, so the pushes reach them all. */
  lemma {:induction false} PushesReachAll(n: Net, x: Name, b: Name, u: Name)
    requires Safe(n) && AllKnow(n) && Enabled(n, HandleHello(x)) && n.phase[x] == Hello(b) && n.pushes == {}
    requires Hears(n, u)
    ensures Knows(Do(n, HandleHello(x)), u, x)
    ensures u != b ==> u in n.known[b]
  {
    assert SafeNode(n, x);
    if u != b {
      assert Hears(n, b) && Knows(n, b, u);
      assert SafeNode(n, b);
      var table := Learn(n.known[b], x, n.home[x]);
      assert table[u] == n.home[u] && n.home[u] in table.Values;
      assert n.home[u] in LiveAddrs(n);
      assert Push(b, n.home[u], x, n.home[x]) in Do(n, HandleHello(x)).pushes;
    }
  }

  lemma {:induction false} HelloWelcomes(n: Net, x: Name, b: Name)
    requires Safe(n) && AllKnow(n) && Enabled(n, HandleHello(x)) && n.phase[x] == Hello(b) && n.pushes == {}
    ensures var n' := Do(n, HandleHello(x));
            Shaped(n') && x in n'.home && Welcomed(n', x, b)
  {
    var n' := Do(n, HandleHello(x));
    HelloFacts(n, x);
    hide Do, Safe, Knows, Enabled, AllKnow;
    forall u | Hears(n', u) ensures Knows(n', u, x) && (u != b ==> u in n'.known[b]) {
      assert Hears(n, u);
      PushesReachAll(n, x, b, u);
    }
  }

  lemma {:induction false} HelloKeepsNews(n: Net, x: Name)
    requires Safe(n) && Enabled(n, HandleHello(x))
    ensures NoNews(n, Do(n, HandleHello(x)))
  {
    HelloFacts(n, x);
    hide Do, Safe, Enabled;
    NoNewsMore(n, Do(n, HandleHello(x)));
  }

  lemma {:induction false} HelloAnswered(n: Net, x: Name)
    requires Enabled(n, HandleHello(x))
    ensures var n' := Do(n, HandleHello(x));
            Shaped(n') && n'.home == n.home && n'.phase == n.phase[x := Answered(n.phase[x].intro)]
  {
    hide Pushed, Learn;
  }

  lemma {:induction false} MeshHello(n: Net, j: Option<Name>, x: Name)
    requires Safe(n) && Mesh(n, j) && SerialStep(n, HandleHello(x))
    ensures Mesh(Do(n, HandleHello(x)), Some(x))
  {
    TheJoiner(n, j, x);
    HelloAnswered(n, x);
    hide Safe, Knows, AllKnow, Do, Enabled;
    HelloWelcomes(n, x, n.phase[x].intro);
    hide Welcomed;
    HelloKeepsNews(n, x);
    hide NoNews;
    AllKnowKept(n, Do(n, HandleHello(x)));
  }

  /** The newcomer's requests change nothing for the others. */
  lemma {:induction false} MeshReplies(n: Net, j: Option<Name>, step: Step)
    requires Safe(n) && Mesh(n, j) && SerialStep(n, step) && (step.HelloReply? || step.HandleList?)
    ensures Mesh(Do(n, step), Some(step.x))
  {
    var n', x := Do(n, step), step.x;
    TheJoiner(n, j, x);
    RepliesKeepNews(n, step);
    JoinerAsks(n, step);
    hide Safe, Do, SerialStep, Knows, JoinerOk, NoNews;
    AllKnowKept(n, n');
  }

  lemma {:induction false} RepliesKeepNews(n: Net, step: Step)
    requires Safe(n) && Enabled(n, step) && (step.HelloReply? || step.HandleList?)
    ensures NoNews(n, Do(n, step)) && n.phase[step.x].intro in n.home
    ensures n.known[n.phase[step.x].intro].Keys <= Do(n, step).known[n.phase[step.x].intro].Keys
  {
    hide Knows, Safe;
    NoNewsMore(n, Do(n, step));
  }

  lemma {:induction false} JoinerAsks(n: Net, step: Step)
    requires Enabled(n, step) && (step.HelloReply? || step.HandleList?)
    requires JoinerOk(n, step.x) && NoNews(n, Do(n, step))
    requires n.known[n.phase[step.x].intro].Keys <= Do(n, step).known[n.phase[step.x].intro].Keys
    ensures JoinerOk(Do(n, step), step.x)
  {
    var n', x := Do(n, step), step.x;
    var b := n.phase[x].intro;
    assert Welcomed(n, x, b);
    hide Knows;
  }

  lemma {:induction false} MergeKeepsNews(n: Net, x: Name, u: Name, v: Name)
    requires Enabled(n, ListReply(x)) && u in n.home && v in n.home && Knows(n, u, v)
    ensures Knows(Do(n, ListReply(x)), u, v)
  {
  }

  /** What the joiner's progress says of v: it is on x's list, or is the
      introducer; and it knows of x. */
  lemma {:induction false} ListedNews(n: Net, x: Name, v: Name)
    requires Shaped(n) && x in n.home && n.phase[x].Listed? && JoinerOk(n, x) && Hears(n, v)
    ensures Knows(n, v, x) && (v == n.phase[x].intro || v in n.phase[x].list)
  {
    hide Knows;
    assert Welcomed(n, x, n.phase[x].intro);
  }

  lemma {:induction false} MergeKnows(n: Net, x: Name, v: Name)
    requires Enabled(n, ListReply(x)) && SafeNode(n, x) && v != x
    requires v == n.phase[x].intro || v in n.phase[x].list
    ensures var n' := Do(n, ListReply(x)); Shaped(n') && n'.home == n.home && v in n'.known[x]
  {
    hide TrueTable;
  }

  /** Once listed, the newcomer knows everyone, and everyone it. */
  lemma {:induction false} NewcomerKnowsAll(n: Net, x: Name, v: Name)
    requires Safe(n) && Enabled(n, ListReply(x)) && JoinerOk(n, x) && Hears(n, v)
    ensures var n' := Do(n, ListReply(x));
            Shaped(n') && x in n'.home && v in n'.home && Knows(n', x, v) && Knows(n', v, x)
  {
    hide JoinerOk, SafeNode, Do, TruePush, Injective;
    assert SafeNode(n, x) && v != x;
    ListedNews(n, x, v);
    MergeKnows(n, x, v);
    MergeKeepsNews(n, x, v, x);
  }

  lemma {:induction false} OneMoreListens(n: Net, n': Net, x: Name)
    requires Shaped(n) && Shaped(n') && n'.home == n.home && x in n.home && AllKnow(n)
    requires forall u | Hears(n', u) && u != x :: Hears(n, u)
    requires forall u, v | u in n.home && v in n.home && Knows(n, u, v) :: Knows(n', u, v)
    requires forall v | Hears(n, v) :: Knows(n', x, v) && Knows(n', v, x)
    ensures AllKnow(n')
  {
    hide Knows;
  }

  lemma {:induction false} JoinedFacts(n: Net, j: Option<Name>, x: Name)
    requires Shaped(n) && OnlyJoiner(n, j) && Enabled(n, ListReply(x))
    ensures var n' := Do(n, ListReply(x));
            && Shaped(n') && n'.home == n.home && (forall u | Hears(n', u) && u != x :: Hears(n, u))
            && (j == Some(x) ==> OnlyJoiner(n', None))
  {
  }

  /** The newcomer starts to listen, and knows everyone. */
  lemma {:induction false} MeshJoined(n: Net, j: Option<Name>, x: Name)
    requires Safe(n) && Mesh(n, j) && SerialStep(n, ListReply(x))
    ensures Mesh(Do(n, ListReply(x)), None)
  {
    var n' := Do(n, ListReply(x));
    TheJoiner(n, j, x);
    JoinedFacts(n, j, x);
    hide Safe, Do, Knows, JoinerOk, Enabled;
    forall u, v | u in n.home && v in n.home && Knows(n, u, v) ensures Knows(n', u, v) {
      MergeKeepsNews(n, x, u, v);
    }
    forall v | Hears(n, v) ensures Knows(n', x, v) && Knows(n', v, x) {
      NewcomerKnowsAll(n, x, v);
    }
    OneMoreListens(n, n', x);
  }

  lemma {:induction false} DeliveryKeepsNews(n: Net, p: Push, y: Name, u: Name, v: Name)
    requires Injective(n.home) && Enabled(n, Deliver(p, y)) && u in n.home && v in n.home && Knows(n, u, v)
    ensures Knows(Do(n, Deliver(p, y)), u, v)
  {
    if v !in n.known[u] {
      var b :| Push(b, n.home[u], v, n.home[v]) in n.pushes;
      if p == Push(b, n.home[u], v, n.home[v]) {
        assert u == y;
      }
    }
  }

  lemma {:induction false} DeliveryFacts(n: Net, j: Option<Name>, p: Push, y: Name)
    requires Shaped(n) && OnlyJoiner(n, j) && Enabled(n, Deliver(p, y))
    ensures var n' := Do(n, Deliver(p, y));
            && Shaped(n') && OnlyJoiner(n', j) && n'.home == n.home && n'.phase == n.phase
            && (n.pushes == {} ==> n'.pushes == {})
            && (forall u | u in n.home :: n.known[u].Keys <= n'.known[u].Keys)
            && (forall u | Hears(n', u) :: Hears(n, u))
  {
  }

  /** A delivered push turns news under way into knowledge. */
  lemma {:induction false} MeshDeliver(n: Net, j: Option<Name>, p: Push, y: Name)
    requires Safe(n) && Mesh(n, j) && SerialStep(n, Deliver(p, y))
    ensures Mesh(Do(n, Deliver(p, y)), j)
  {
    var n' := Do(n, Deliver(p, y));
    DeliveryFacts(n, j, p, y);
    assert Injective(n.home);
    hide Safe, Do, Knows, Enabled, JoinerOk, OnlyJoiner, AllKnow, Injective;
    forall u, v | u in n.home && v in n.home && Knows(n, u, v) ensures Knows(n', u, v) {
      DeliveryKeepsNews(n, p, y, u, v);
    }
    AllKnowKept(n, n');
    if j.Some? {
      JoinerWaits(n, n', j.value);
    }
  }

  /** News for the others does not set the joiner back. */
  lemma {:induction false} JoinerWaits(n: Net, n': Net, x: Name)
    requires NoNews(n, n') && x in n.home && JoinerOk(n, x) && n'.phase[x] == n.phase[x]
    requires n.pushes == {} ==> n'.pushes == {}
    requires forall u | u in n.home :: n.known[u].Keys <= n'.known[u].Keys
    ensures JoinerOk(n', x)
  {
    hide Knows;
    if !n.phase[x].Hello? {
    }
  }

  lemma {:induction false} StepKeepsMesh(n: Net, j: Option<Name>, step: Step) returns (j': Option<Name>)
    requires Safe(n) && Mesh(n, j) && SerialStep(n, step)
    ensures Mesh(Do(n, step), j')
  {
    hide Safe, Mesh, Do;
    match step
    case Start(x) => MeshStart(n, j, x); j' := None;
    case Dial(x, b) => MeshDial(n, j, x, b); j' := Some(x);
    case HandleHello(x) => MeshHello(n, j, x); j' := Some(x);
    case HelloReply(x) => MeshReplies(n, j, step); j' := Some(x);
    case HandleList(x) => MeshReplies(n, j, step); j' := Some(x);
    case ListReply(x) => MeshJoined(n, j, x); j' := None;
    case Deliver(p, y) => MeshDeliver(n, j, p, y); j' := j;
  }

  /** A run of serial joins in which every push arrives. */
  ghost predicate SerialRun(n: Net, steps: seq<Step>)
    decreases |steps|
  {
    Enables(n, steps) &&
    (steps == [] ||
     var k := |steps| - 1;
     SerialRun(n, steps[..k]) && SerialStep(Run(n, steps[..k]), steps[k]))
  }

  lemma {:induction false} MeshInEveryRun(n: Net, steps: seq<Step>) returns (j: Option<Name>)
    requires Initial(n) && SerialRun(n, steps)
    ensures Safe(Run(n, steps)) && Mesh(Run(n, steps), j)
    decreases |steps|
  {
    RunIsSafe(n, steps);
    if steps == [] {
      j := None;
    } else {
      hide Safe, Mesh, Do, SerialStep;
      var k := |steps| - 1;
      j := MeshInEveryRun(n, steps[..k]);
      j := StepKeepsMesh(Run(n, steps[..k]), j, steps[k]);
    }
  }

  lemma {:induction false} QuietMesh(n: Net, j: Option<Name>, u: Name, v: Name)
    requires Safe(n) && Mesh(n, j) && Quiet(n) && Hears(n, u) && Hears(n, v) && u != v
    ensures v in n.known[u] && v in n.home && n.known[u][v] == n.home[v]
  {
    assert SafeNode(n, u);
    assert Knows(n, u, v);
  }

  /** After any number of serial joins, each through any node that listens, all
      nodes that listen know each other, newcomers included. */
  lemma {:induction false} SerialJoinsMakeFullMesh(n: Net, steps: seq<Step>, u: Name, v: Name)
    requires Initial(n) && SerialRun(n, steps) && Enables(n, steps) && Quiet(Run(n, steps))
    requires Hears(Run(n, steps), u) && Hears(Run(n, steps), v) && u != v
    ensures var m := Run(n, steps); v in m.known[u] && v in m.home && m.known[u][v] == m.home[v]
  {
    hide Run, Enables, SerialRun, Safe, Mesh;
    var j := MeshInEveryRun(n, steps);
    QuietMesh(Run(n, steps), j, u, v);
  }
}
