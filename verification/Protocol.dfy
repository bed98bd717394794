/** The whole mint as a state machine: forking creators publish what they like,
    honest nodes receive, create, crash and replay in any interleaving. */
module Protocol {
  import opened Ordered
  import opened Dag
  import opened Election
  import opened Ordering
  import opened Extension

  predicate SameHash(hashOf: Unit -> UnitHash, u: Unit, v: Unit) {
    hashOf(u) == hashOf(v)
  }

  /** Everything signed and published so far, under its hash. */
  datatype Session = Session(rules: Rules, hashOf: Unit -> UnitHash, byzantine: set<NodeId>, signed: Units) {
    /** The well-placed part: what any node can ever extend. */
    ghost function World(): World {
      Dag.World.World(rules, byzantine, Extended(signed))
    }

    ghost predicate Injective() {
      forall u: Unit, v: Unit {:trigger SameHash(hashOf, u, v)} :: SameHash(hashOf, u, v) ==> u == v
    }

    ghost predicate Sound() {
      && |byzantine| <= rules.f && Injective()
      && Admitted(rules, signed)
      && (forall h :: h in signed ==> hashOf(signed[h]) == h)
      && OneVoiced()
    }

    /** Honest creators have published one unit a round. */
    ghost predicate OneVoiced() {
      forall g, h {:trigger SamePosition(signed[g], signed[h], byzantine)} ::
        g in signed && h in signed && SamePosition(signed[g], signed[h], byzantine) ==> g == h
    }

    function Publish(u: Unit): Session {
      this.(signed := signed[hashOf(u) := u])
    }
  }

  lemma SoundWorld(s: Session)
    requires s.Sound()
    ensures s.World().Sound()
  {
    ExtendedRooted(s.signed);
  }

  lemma TableHolds(s: Session, table: Units)
    requires Submap(table, s.signed)
    ensures s.World().Holds(Extended(table))
  {
    ExtendedRooted(table);
    ExtendedGrows(table, s.signed);
  }

  /** One node: its unit table, the part of it already fsynced, and where its
      extender stands. */
  datatype Node = Node(table: Units, durable: Units, progress: Progress)

  ghost function RunOver(rules: Rules, table: Units, p: Progress): Progress {
    ExtendedRooted(table);
    Run(rules, Extended(table), p)
  }

  /** A unit arrives and is committed without fsync; a duplicate changes nothing. */
  ghost function Receive(rules: Rules, n: Node, h: UnitHash, u: Unit): Node {
    if h in n.table then n else
      var table := n.table[h := u];
      Node(table, n.durable, RunOver(rules, table, n.progress))
  }

  /** An own unit is committed with fsync, which flushes the backlog. */
  ghost function Create(rules: Rules, n: Node, h: UnitHash, u: Unit): Node {
    var table := n.table[h := u];
    Node(table, table, RunOver(rules, table, n.progress))
  }

  /** A restart on what survived on disk, replayed from scratch. */
  ghost function Restart(rules: Rules, kept: Units): Node {
    Node(kept, kept, RunOver(rules, kept, Start))
  }

  /** What an honest node makes sure of before signing `u`. */
  ghost predicate MayCreate(rules: Rules, n: Node, i: NodeId, u: Unit) {
    && rules.Admits(u) && u.creator == i
    && (forall h :: h in n.table && n.table[h].creator == i ==> n.table[h].round < u.round)
    && (forall c :: c in u.parents ==>
          var p := u.parents[c];
          p in Extended(n.table) && n.table[p].creator == c && n.table[p].round + 1 == u.round)
    && (u.round > 0 ==> i in u.parents)
  }

  datatype System = System(session: Session, nodes: map<NodeId, Node>)

  datatype Step =
    | Forge(unit: Unit)
    | Deliver(node: NodeId, hash: UnitHash)
    | Make(node: NodeId, unit: Unit)
    | Crash(node: NodeId, kept: Units)

  ghost predicate Initial(s: System) {
    && |s.session.byzantine| <= s.session.rules.f && s.session.Injective()
    && s.session.signed == map[]
    && (forall i :: i in s.nodes ==> i !in s.session.byzantine && s.nodes[i] == Node(map[], map[], Start))
  }

  /** Forgers sign any admissible unit; honest nodes follow the engine. */
  ghost predicate Enabled(s: System, step: Step) {
    match step
    case Forge(u) => s.session.rules.Admits(u) && u.creator in s.session.byzantine
    case Deliver(i, h) => i in s.nodes && h in s.session.signed
    case Make(i, u) => i in s.nodes && MayCreate(s.session.rules, s.nodes[i], i, u)
    case Crash(i, kept) =>
      i in s.nodes && Submap(s.nodes[i].durable, kept) && Submap(kept, s.nodes[i].table)
  }

  ghost function Next(s: System, step: Step): System
    requires Enabled(s, step)
  {
    var rules := s.session.rules;
    match step
    case Forge(u) => s.(session := s.session.Publish(u))
    case Deliver(i, h) => s.(nodes := s.nodes[i := Receive(rules, s.nodes[i], h, s.session.signed[h])])
    case Make(i, u) =>
      System(s.session.Publish(u), s.nodes[i := Create(rules, s.nodes[i], s.session.hashOf(u), u)])
    case Crash(i, kept) => s.(nodes := s.nodes[i := Restart(rules, kept)])
  }

  /** The own column of `i` in a table: one unit a round, each with its
      predecessor as a parent, all of them extended. */
  ghost predicate OwnColumn(table: Units, i: NodeId) {
    OneARound(table, i) && AllChained(table, i)
  }

  ghost predicate OneARound(table: Units, i: NodeId) {
    forall g, h {:trigger BothOwn(table[g], table[h], i)} ::
      g in table && h in table && BothOwn(table[g], table[h], i) ==> g == h
  }

  ghost predicate AllChained(table: Units, i: NodeId) {
    forall h {:trigger Chained(table, h, i)} :: h in table && table[h].creator == i ==> Chained(table, h, i)
  }

  /** Two units of `i` at one round. */
  predicate BothOwn(u: Unit, v: Unit, i: NodeId) {
    u.creator == i && v.creator == i && u.round == v.round
  }

  /** An own unit is extended and rests on the own unit a round below. */
  ghost predicate Chained(table: Units, h: UnitHash, i: NodeId)
    requires h in table
  {
    h in Extended(table) && (table[h].round > 0 ==> i in table[h].parents)
  }

  /** What every step keeps about one honest node. */
  ghost predicate NodeInv(s: Session, i: NodeId, n: Node) {
    && i !in s.byzantine
    && Submap(n.durable, n.table) && Submap(n.table, s.signed)
    && (forall h :: h in s.signed && s.signed[h].creator == i ==> h in n.durable)
    && OwnColumn(n.durable, i)
    && n.progress == RunOver(s.rules, n.table, Start)
  }

  ghost predicate Inv(s: System) {
    s.session.Sound() && forall i :: i in s.nodes ==> NodeInv(s.session, i, s.nodes[i])
  }

  lemma InitialInv(s: System)
    requires Initial(s)
    ensures Inv(s)
  {
    forall i | i in s.nodes ensures NodeInv(s.session, i, s.nodes[i]) {
      assert Extended(map[]) == map[];
      assert Head(s.session.rules, map[], 0) == None;
    }
  }

  /** Growing a node's table and resuming keeps its progress canonical. */
  lemma ProgressStaysCanonical(s: Session, table: Units, larger: Units)
    requires s.Sound() && Submap(table, larger) && Submap(larger, s.signed)
    ensures RunOver(s.rules, larger, RunOver(s.rules, table, Start)) == RunOver(s.rules, larger, Start)
  {
    SoundWorld(s);
    TableHolds(s, table);
    TableHolds(s, larger);
    ExtendedGrows(table, larger);
    RunResumes(s.World(), Extended(table), Extended(larger), Start);
  }

  /** Publishing is sound unless it puts an honest creator at one round twice. */
  lemma PublishIsSound(s: Session, u: Unit)
    requires s.Sound() && s.rules.Admits(u)
    requires forall g :: g in s.signed && SamePosition(s.signed[g], u, s.byzantine) ==> s.signed[g] == u
    ensures s.Publish(u).Sound()
    ensures Submap(s.signed, s.Publish(u).signed)
  {
    var t := s.Publish(u);
    var h := s.hashOf(u);
    HashNamesUnit(s, u);
    forall g | g in s.signed && SamePosition(s.signed[g], u, s.byzantine) ensures g == h {
      assert s.hashOf(s.signed[g]) == g;
    }
    StillOneVoiced(s, u);
    assert Admitted(t.rules, t.signed);
    assert forall g :: g in t.signed ==> t.hashOf(t.signed[g]) == g;
  }

  lemma StillOneVoiced(s: Session, u: Unit)
    requires s.Sound()
    requires forall g :: g in s.signed && SamePosition(s.signed[g], u, s.byzantine) ==> g == s.hashOf(u)
    ensures s.Publish(u).OneVoiced()
  {
    var t, h := s.Publish(u), s.hashOf(u);
    forall g, k | g in t.signed && k in t.signed && SamePosition(t.signed[g], t.signed[k], t.byzantine) ensures g == k {
      assert g != h ==> g in s.signed && t.signed[g] == s.signed[g];
      assert k != h ==> k in s.signed && t.signed[k] == s.signed[k];
    }
  }

  lemma HashNamesUnit(s: Session, u: Unit)
    requires s.Sound()
    ensures s.hashOf(u) in s.signed ==> s.signed[s.hashOf(u)] == u
  {
    var h := s.hashOf(u);
    if h in s.signed {
      assert SameHash(s.hashOf, s.signed[h], u);
    }
  }

  /** A newly made own unit has a hash no published unit has. */
  lemma MadeIsNew(s: Session, i: NodeId, n: Node, u: Unit)
    requires s.Sound() && NodeInv(s, i, n) && MayCreate(s.rules, n, i, u)
    ensures s.hashOf(u) !in s.signed
    ensures s.Publish(u).Sound() && Submap(s.signed, s.Publish(u).signed)
  {
    forall g | g in s.signed && s.signed[g].creator == i ensures s.signed[g].round < u.round {
      assert g in n.durable && g in n.table;
    }
    HashNamesUnit(s, u);
    PublishIsSound(s, u);
  }

  /** An own column grows by one extended unit on top of it. */
  lemma ColumnGrows(durable: Units, table: Units, i: NodeId, h: UnitHash, u: Unit)
    requires Submap(durable, table) && OwnColumn(durable, i) && h !in table
    requires OwnBelow(durable, table, i, u.round)
    requires u.creator == i && Placed(table[h := u], Extended(table), h) && (u.round > 0 ==> i in u.parents)
    ensures OwnColumn(table[h := u], i)
  {
    ColumnStaysChained(durable, table, i, h, u);
    ColumnStaysSingle(durable, table, i, h, u);
  }

  lemma ColumnStaysChained(durable: Units, table: Units, i: NodeId, h: UnitHash, u: Unit)
    requires Submap(durable, table) && AllChained(durable, i) && h !in table
    requires OwnBelow(durable, table, i, u.round)
    requires Placed(table[h := u], Extended(table), h) && (u.round > 0 ==> i in u.parents)
    ensures AllChained(table[h := u], i)
  {
    var larger := table[h := u];
    PlacedExtends(table, h, u);
    assert Submap(durable, larger);
    forall g | g in larger && larger[g].creator == i ensures Chained(larger, g, i) {
      if g != h {
        assert g in table;
        ChainedGrows(durable, larger, g, i);
      }
    }
  }

  lemma ChainedGrows(table: Units, larger: Units, h: UnitHash, i: NodeId)
    requires Submap(table, larger) && h in table && Chained(table, h, i)
    ensures Chained(larger, h, i)
  {
    ExtendedGrows(table, larger);
  }

  /** All own units are durable and lie below `round`. */
  ghost predicate OwnBelow(durable: Units, table: Units, i: NodeId, round: Round) {
    forall g :: g in table && table[g].creator == i ==> g in durable && table[g].round < round
  }

  lemma ColumnStaysSingle(durable: Units, table: Units, i: NodeId, h: UnitHash, u: Unit)
    requires Submap(durable, table) && OwnColumn(durable, i) && h !in table && u.creator == i
    requires OwnBelow(durable, table, i, u.round)
    ensures OneARound(table[h := u], i)
  {
    var larger := table[h := u];
    forall g, k | g in larger && k in larger && BothOwn(larger[g], larger[k], i) ensures g == k {
      if g != h && k != h {
        assert g in durable && k in durable && BothOwn(durable[g], durable[k], i);
      }
    }
  }

  lemma MadeKeepsColumn(s: Session, i: NodeId, n: Node, u: Unit)
    requires s.Sound() && NodeInv(s, i, n) && MayCreate(s.rules, n, i, u) && s.hashOf(u) !in n.table
    ensures OwnColumn(n.table[s.hashOf(u) := u], i)
  {
    var h := s.hashOf(u);
    MadeIsPlaced(s.rules, i, n, h, u);
    forall g | g in n.table && n.table[g].creator == i ensures g in n.durable && n.table[g].round < u.round {
      assert g in s.signed;
    }
    ColumnGrows(n.durable, n.table, i, h, u);
  }

  lemma MadeIsPlaced(rules: Rules, i: NodeId, n: Node, h: UnitHash, u: Unit)
    requires MayCreate(rules, n, i, u) && h !in n.table
    ensures Placed(n.table[h := u], Extended(n.table), h)
  {
  }

  lemma OthersKeepInv(s: Session, u: Unit, i: NodeId, n: Node)
    requires s.Sound() && NodeInv(s, i, n) && u.creator != i && s.Publish(u).Sound()
    ensures NodeInv(s.Publish(u), i, n)
  {
    HashNamesUnit(s, u);
    assert Submap(s.signed, s.Publish(u).signed);
  }

  lemma ReceiveKeepsInv(s: Session, i: NodeId, n: Node, h: UnitHash)
    requires s.Sound() && NodeInv(s, i, n) && h in s.signed
    ensures NodeInv(s, i, Receive(s.rules, n, h, s.signed[h]))
  {
    if h !in n.table {
      ProgressStaysCanonical(s, n.table, n.table[h := s.signed[h]]);
    }
  }

  lemma CreateKeepsInv(s: Session, i: NodeId, n: Node, u: Unit)
    requires s.Sound() && NodeInv(s, i, n) && MayCreate(s.rules, n, i, u)
    ensures s.Publish(u).Sound()
    ensures NodeInv(s.Publish(u), i, Create(s.rules, n, s.hashOf(u), u))
  {
    MadeIsNew(s, i, n, u);
    var h := s.hashOf(u);
    assert h !in n.table;
    var table := n.table[h := u];
    MadeKeepsColumn(s, i, n, u);
    ProgressStaysCanonical(s.Publish(u), n.table, table);
    PublishedOwnHeld(s, i, n, u);
  }

  lemma PublishedOwnHeld(s: Session, i: NodeId, n: Node, u: Unit)
    requires s.Sound() && NodeInv(s, i, n)
    ensures var t, table := s.Publish(u), n.table[s.hashOf(u) := u];
      (forall h :: h in t.signed && t.signed[h].creator == i ==> h in table) && Submap(table, t.signed)
  {
  }

  lemma ColumnKept(durable: Units, kept: Units, i: NodeId)
    requires OwnColumn(durable, i) && Submap(durable, kept)
    requires forall h :: h in kept && kept[h].creator == i ==> h in durable
    ensures OwnColumn(kept, i)
  {
    forall h | h in kept && kept[h].creator == i ensures Chained(kept, h, i) {
      ChainedGrows(durable, kept, h, i);
    }
    forall g, h | g in kept && h in kept && BothOwn(kept[g], kept[h], i) ensures g == h {
      assert BothOwn(durable[g], durable[h], i);
    }
  }

  /** A crash that loses only relaxed commits keeps the own column whole: what
      survives still holds every own unit, extended. */
  lemma CrashKeepsInv(s: Session, i: NodeId, n: Node, kept: Units)
    requires s.Sound() && NodeInv(s, i, n) && Submap(n.durable, kept) && Submap(kept, n.table)
    ensures NodeInv(s, i, Restart(s.rules, kept))
  {
    assert forall h :: h in kept && kept[h].creator == i ==> h in s.signed && s.signed[h].creator == i;
    ColumnKept(n.durable, kept, i);
  }

  lemma StepKeepsInv(s: System, step: Step)
    requires Inv(s) && Enabled(s, step)
    ensures Inv(Next(s, step))
  {
    match step
    case Forge(u) =>
      PublishIsSound(s.session, u);
      forall i | i in s.nodes ensures NodeInv(s.session.Publish(u), i, s.nodes[i]) {
        OthersKeepInv(s.session, u, i, s.nodes[i]);
      }
    case Deliver(i, h) =>
      ReceiveKeepsInv(s.session, i, s.nodes[i], h);
    case Make(i, u) =>
      CreateKeepsInv(s.session, i, s.nodes[i], u);
      forall j | j in s.nodes && j != i ensures NodeInv(s.session.Publish(u), j, s.nodes[j]) {
        OthersKeepInv(s.session, u, j, s.nodes[j]);
      }
    case Crash(i, kept) =>
      CrashKeepsInv(s.session, i, s.nodes[i], kept);
  }

  /** The states reached by taking `steps` one after the other from `s`. */
  ghost predicate Reaches(s: System, steps: seq<Step>, t: System)
    decreases |steps|
  {
    if steps == [] then s == t else Enabled(s, steps[0]) && Reaches(Next(s, steps[0]), steps[1..], t)
  }

  lemma {:induction false} RunKeepsInv(s: System, steps: seq<Step>, t: System)
    requires Inv(s) && Reaches(s, steps, t)
    ensures Inv(t)
    ensures t.session.rules == s.session.rules && t.session.byzantine == s.session.byzantine
    ensures Submap(s.session.signed, t.session.signed)
    decreases |steps|
  {
    if steps != [] {
      StepKeepsInv(s, steps[0]);
      var u := Next(s, steps[0]);
      RunKeepsInv(u, steps[1..], t);
      SignedGrows(s, steps[0]);
    }
  }

  /** Publishing never replaces what a hash stands for. */
  lemma SignedGrows(s: System, step: Step)
    requires Inv(s) && Enabled(s, step)
    ensures Submap(s.session.signed, Next(s, step).session.signed)
  {
    if step.Forge? || step.Make? {
      HashNamesUnit(s.session, step.unit);
    }
  }

  /** Total-order agreement over whole runs: what node `i` has emitted at one
      time and node `j` at any later time are prefixes of one another, through
      forks, losses, reorderings, crashes and replays. */
  lemma AgreementOverRuns(start: System, before: seq<Step>, s: System, after: seq<Step>, t: System, i: NodeId,
                          j: NodeId)
    requires Initial(start) && Reaches(start, before, s) && Reaches(s, after, t)
    requires i in s.nodes && j in t.nodes
    ensures Comparable(s.nodes[i].progress, t.nodes[j].progress)
  {
    InitialInv(start);
    RunKeepsInv(start, before, s);
    RunKeepsInv(s, after, t);
    var w := t.session.World();
    SoundWorld(t.session);
    TableHolds(t.session, s.nodes[i].table);
    TableHolds(t.session, t.nodes[j].table);
    OrdersAgree(w, Extended(s.nodes[i].table), Extended(t.nodes[j].table), Start);
  }

  /** No honest node ever publishes two units of one round. */
  lemma NoHonestFork(start: System, steps: seq<Step>, t: System, g: UnitHash, h: UnitHash)
    requires Initial(start) && Reaches(start, steps, t)
    requires g in t.session.signed && h in t.session.signed
    requires SamePosition(t.session.signed[g], t.session.signed[h], t.session.byzantine)
    ensures g == h
  {
    InitialInv(start);
    RunKeepsInv(start, steps, t);
  }

  /** What a node publishes survives its crashes, extended, with its own
      predecessor as a parent. */
  lemma OwnUnitsSurvive(start: System, steps: seq<Step>, t: System, i: NodeId, h: UnitHash)
    requires Initial(start) && Reaches(start, steps, t)
    requires i in t.nodes && h in t.session.signed && t.session.signed[h].creator == i
    ensures h in t.nodes[i].durable && Chained(t.nodes[i].durable, h, i)
  {
    InitialInv(start);
    RunKeepsInv(start, steps, t);
    assert NodeInv(t.session, i, t.nodes[i]);
  }

  /** Replay over the stored units emits exactly the sequence the live
      unit-by-unit run emitted; replay over what a crash left emits a prefix. */
  lemma ReplayReproducesLive(start: System, steps: seq<Step>, t: System, i: NodeId, kept: Units)
    requires Initial(start) && Reaches(start, steps, t)
    requires i in t.nodes && Submap(kept, t.nodes[i].table)
    ensures Restart(t.session.rules, t.nodes[i].table).progress == t.nodes[i].progress
    ensures Restart(t.session.rules, kept).progress.order <= t.nodes[i].progress.order
  {
    InitialInv(start);
    RunKeepsInv(start, steps, t);
    var n := t.nodes[i];
    assert NodeInv(t.session, i, n);
    ProgressStaysCanonical(t.session, kept, n.table);
    ExtendedRooted(n.table);
    RunOnlyAppends(t.session.rules, Extended(n.table), RunOver(t.session.rules, kept, Start));
  }

  /** At every reachable state each node has emitted each unit at most once,
      all of a unit's parents before it. */
  lemma EmissionIsCausal(start: System, steps: seq<Step>, t: System, i: NodeId)
    requires Initial(start) && Reaches(start, steps, t) && i in t.nodes
    ensures Causal(t.nodes[i].table, t.nodes[i].progress.order)
  {
    InitialInv(start);
    RunKeepsInv(start, steps, t);
    var n := t.nodes[i];
    assert NodeInv(t.session, i, n);
    ExtendedRooted(n.table);
    RunUnderway(t.session.rules, Extended(n.table), Start);
    UnderwayGrows(Extended(n.table), n.table, n.progress);
  }
}
