/**
 Machine rows, their keepalive and the scheduler's reaper as a timed state machine: every
 statement is a step, and the steps of several nodes, task claims and the reaper interleave freely.
 Times are in seconds.
 */
module Keepalive {
  import opened Text

  /** A row is looked on as dead this long after its last contact (LOOKS_DEAD_TIMEOUT, ten minutes). */
  const LOOKS_DEAD: nat := 600

  /** A harmony_machines row. */
  datatype Machine = Machine(host: string, contact: int)

  /** Where a node stands between the statements of recordMachineRow and of its keepalive. */
  datatype Phase = Inserting | Reading | Up(id: int) | Healing(id: int)

  /** A running node; `touched` is when one of its statements last wrote its row. */
  datatype Node = Node(phase: Phase, touched: int)

  /** Rows by id; `nextId` is what AUTOINCREMENT hands out next; tasks with their owner_id. */
  datatype State = State(machines: map<int, Machine>, nextId: int, tasks: map<int, Option<int>>,
                         nodes: map<string, Node>, now: int)

  datatype Step =
    | Wait(dt: nat)
    | BootUpdate(host: string) | BootInsert(host: string) | BootRead(host: string, id: int)
    | TickUpdate(host: string) | TickInsert(host: string)
    | Fail(host: string) | Stop(host: string)
    | Reap(dead: set<int>)
    | AddTask(task: int) | Claim(task: int, host: string) | Release(task: int)

  predicate HasId(node: Node) {
    node.phase.Up? || node.phase.Healing?
  }

  /** The row of the SELECT ... ORDER BY id DESC LIMIT 1. */
  predicate NewestOf(machines: map<int, Machine>, host: string, id: int) {
    && id in machines && machines[id].host == host
    && forall m | m in machines && machines[m].host == host :: m <= id
  }

  predicate Enabled(st: State, step: Step) {
    match step
    case Wait(_) => true
    case BootUpdate(host) => host !in st.nodes
    case BootInsert(host) => host in st.nodes && st.nodes[host].phase == Inserting
    case BootRead(host, id) => host in st.nodes && st.nodes[host].phase == Reading && NewestOf(st.machines, host, id)
    case TickUpdate(host) => host in st.nodes && st.nodes[host].phase.Up?
    case TickInsert(host) => host in st.nodes && st.nodes[host].phase.Healing?
    case Fail(host) => host in st.nodes && !st.nodes[host].phase.Up?
    case Stop(host) => host in st.nodes && HasId(st.nodes[host])
    case Reap(dead) => forall id | id in dead :: id in st.machines && st.now - st.machines[id].contact >= LOOKS_DEAD
    case AddTask(task) => task !in st.tasks
    case Claim(task, host) =>
      // owner_id must name a row: with foreign keys on, any other claim fails and changes nothing
      && task in st.tasks && st.tasks[task] == None
      && host in st.nodes && HasId(st.nodes[host]) && st.nodes[host].phase.id in st.machines
    case Release(task) => task in st.tasks
  }

  function TouchHost(machines: map<int, Machine>, host: string, now: int): map<int, Machine> {
    map id | id in machines :: if machines[id].host == host then Machine(host, now) else machines[id]
  }

  predicate HasRow(machines: map<int, Machine>, host: string) {
    exists id :: id in machines && machines[id].host == host
  }

  /** ON DELETE SET NULL. */
  function Disown(tasks: map<int, Option<int>>, dead: set<int>): map<int, Option<int>> {
    map t | t in tasks :: if tasks[t].Some? && tasks[t].value in dead then None else tasks[t]
  }

  function WithNode(st: State, host: string, node: Node): State {
    st.(nodes := st.nodes[host := node])
  }

  /** UPDATE ... WHERE host_and_port = ?; without a row to update, an INSERT is next. */
  function AfterBootUpdate(st: State, host: string): State {
    WithNode(st.(machines := TouchHost(st.machines, host, st.now)), host,
             Node(if HasRow(st.machines, host) then Reading else Inserting, st.now))
  }

  function AfterBootInsert(st: State, host: string): State {
    WithNode(st.(machines := st.machines[st.nextId := Machine(host, st.now)], nextId := st.nextId + 1),
             host, Node(Reading, st.now))
  }

  /** UPDATE ... WHERE id = ?; when no row was affected, the row is re-inserted next. */
  function AfterTickUpdate(st: State, host: string): State
    requires host in st.nodes && st.nodes[host].phase.Up?
  {
    var id := st.nodes[host].phase.id;
    if id in st.machines then
      WithNode(st.(machines := st.machines[id := st.machines[id].(contact := st.now)]), host, Node(Up(id), st.now))
    else WithNode(st, host, Node(Healing(id), st.nodes[host].touched))
  }

  /** INSERT OR IGNORE INTO harmony_machines (id, ...). */
  function AfterTickInsert(st: State, host: string): State
    requires host in st.nodes && st.nodes[host].phase.Healing?
  {
    var id := st.nodes[host].phase.id;
    WithNode(if id in st.machines then st else st.(machines := st.machines[id := Machine(host, st.now)]),
             host, Node(Up(id), st.now))
  }

  /** A statement that fails ends a boot; a failed tick is simply over. */
  function AfterFail(st: State, host: string): State
    requires host in st.nodes
  {
    if st.nodes[host].phase.Healing? then WithNode(st, host, Node(Up(st.nodes[host].phase.id), st.nodes[host].touched))
    else st.(nodes := st.nodes - {host})
  }

  function Apply(st: State, step: Step): State
    requires Enabled(st, step)
  {
    match step
    case Wait(dt) => st.(now := st.now + dt)
    case BootUpdate(host) => AfterBootUpdate(st, host)
    case BootInsert(host) => AfterBootInsert(st, host)
    case BootRead(host, id) => WithNode(st, host, Node(Up(id), st.nodes[host].touched))
    case TickUpdate(host) => AfterTickUpdate(st, host)
    case TickInsert(host) => AfterTickInsert(st, host)
    case Fail(host) => AfterFail(st, host)
    case Stop(host) => st.(nodes := st.nodes - {host})
    case Reap(dead) => st.(machines := st.machines - dead, tasks := Disown(st.tasks, dead))
    case AddTask(task) => st.(tasks := st.tasks[task := None])
    case Claim(task, host) => st.(tasks := st.tasks[task := Some(st.nodes[host].phase.id)])
    case Release(task) => st.(tasks := st.tasks - {task})
  }

  // ---- The invariant ------------------------------------------------------------------

  /** Every owner_id names a row. */
  predicate OwnersLive(tasks: map<int, Option<int>>, machines: map<int, Machine>) {
    forall t | t in tasks && tasks[t].Some? :: tasks[t].value in machines
  }

  predicate OneRowPerHost(machines: map<int, Machine>, nextId: int) {
    && (forall a, b | a in machines && b in machines && machines[a].host == machines[b].host :: a == b)
    && forall id | id in machines :: id < nextId
  }

  /** What a node may rely on: while it has an id, that id is its host's and nobody else's. */
  predicate NodeInv(machines: map<int, Machine>, nextId: int, host: string, node: Node) {
    match node.phase
    case Inserting => forall m | m in machines :: machines[m].host != host
    case Reading => true
    case Up(id) => id < nextId && forall m | m in machines :: machines[m].host == host <==> m == id
    case Healing(id) => id < nextId && forall m | m in machines :: machines[m].host != host && m != id
  }

  /** Two nodes never have the same id. */
  predicate IdsApart(nodes: map<string, Node>) {
    forall a, b | a in nodes && b in nodes && HasId(nodes[a]) && HasId(nodes[b]) ::
      nodes[a].phase.id == nodes[b].phase.id ==> a == b
  }

  predicate Inv(st: State) {
    && OwnersLive(st.tasks, st.machines) && OneRowPerHost(st.machines, st.nextId) && IdsApart(st.nodes)
    && forall host | host in st.nodes :: NodeInv(st.machines, st.nextId, host, st.nodes[host])
  }

  lemma BootKeeps(st: State, step: Step)
    requires Inv(st) && Enabled(st, step) && (step.BootUpdate? || step.BootInsert? || step.BootRead?)
    ensures Inv(Apply(st, step))
  {
    var after := Apply(st, step);
    forall host | host in after.nodes ensures NodeInv(after.machines, after.nextId, host, after.nodes[host]) {
      if host in st.nodes {
        assert NodeInv(st.machines, st.nextId, host, st.nodes[host]);
      }
    }
  }

  lemma TickKeeps(st: State, step: Step)
    requires Inv(st) && Enabled(st, step) && (step.TickUpdate? || step.TickInsert?)
    ensures Inv(Apply(st, step))
  {
    var after := Apply(st, step);
    assert NodeInv(st.machines, st.nextId, step.host, st.nodes[step.host]);
    forall host | host in after.nodes ensures NodeInv(after.machines, after.nextId, host, after.nodes[host]) {
      assert NodeInv(st.machines, st.nextId, host, st.nodes[host]);
    }
  }

  /** Every step of every node keeps the invariant. */
  lemma StepKeeps(st: State, step: Step)
    requires Inv(st) && Enabled(st, step)
    ensures Inv(Apply(st, step))
  {
    match step
    case BootUpdate(_) => BootKeeps(st, step);
    case BootInsert(_) => BootKeeps(st, step);
    case BootRead(_, _) => BootKeeps(st, step);
    case TickUpdate(_) => TickKeeps(st, step);
    case TickInsert(_) => TickKeeps(st, step);
    case _ =>
  }

  // ---- Runs ---------------------------------------------------------------------------

  predicate Legal(st: State, steps: seq<Step>)
    decreases |steps|
  {
    steps == [] || (Enabled(st, steps[0]) && Legal(Apply(st, steps[0]), steps[1..]))
  }

  function Run(st: State, steps: seq<Step>): State
    requires Legal(st, steps)
    decreases |steps|
  {
    if steps == [] then st else Run(Apply(st, steps[0]), steps[1..])
  }

  /** After any run every owner_id names a live row and no host has two rows, if it was so before. */
  lemma {:induction false} OwnersStayLive(st: State, steps: seq<Step>)
    requires Inv(st) && Legal(st, steps)
    ensures Inv(Run(st, steps))
    decreases |steps|
  {
    if steps != [] {
      StepKeeps(st, steps[0]);
      OwnersStayLive(Apply(st, steps[0]), steps[1..]);
    }
  }

  /** So it is after any run from an empty database: no rows, no tasks, no node started. */
  lemma OwnersLiveFromEmpty(nextId: int, now: int, steps: seq<Step>)
    requires Legal(State(map[], nextId, map[], map[], now), steps)
    ensures Inv(Run(State(map[], nextId, map[], map[], now), steps))
  {
    OwnersStayLive(State(map[], nextId, map[], map[], now), steps);
  }

  /** The host's row is there, last touched by the node itself. */
  predicate Kept(st: State, host: string) {
    host in st.nodes ==>
      var node := st.nodes[host];
      match node.phase
      case Inserting => true
      case Reading => exists id :: id in st.machines && st.machines[id] == Machine(host, node.touched)
      case Up(id) => id in st.machines && st.machines[id] == Machine(host, node.touched)
      case Healing(_) => false
  }

  /** The node's last successful statement is less than ten minutes ago. */
  predicate Timely(st: State, host: string) {
    host in st.nodes ==> st.now - st.nodes[host].touched < 600
  }

  predicate TimelyRun(st: State, host: string, steps: seq<Step>)
    requires Legal(st, steps)
    decreases |steps|
  {
    Timely(st, host) && (steps != [] ==> TimelyRun(Apply(st, steps[0]), host, steps[1..]))
  }

  lemma OwnStepKeepsRow(st: State, step: Step, host: string)
    requires Inv(st) && Enabled(st, step) && Kept(st, host)
    requires match step
             case BootUpdate(h) => h == host
             case BootInsert(h) => h == host
             case BootRead(h, _) => h == host
             case TickUpdate(h) => h == host
             case _ => false
    ensures Kept(Apply(st, step), host)
  {
    var after := Apply(st, step);
    match step
    case BootUpdate(_) =>
      if id :| id in st.machines && st.machines[id].host == host {
        assert id in after.machines && after.machines[id] == Machine(host, st.now);
      }
    case BootInsert(_) =>
      assert after.machines[st.nextId] == Machine(host, st.now);
    case BootRead(_, id) =>
      var kept :| kept in st.machines && st.machines[kept] == Machine(host, st.nodes[host].touched);
    case TickUpdate(_) =>
  }

  lemma OtherStepKeepsRow(st: State, step: Step, host: string)
    requires Inv(st) && Enabled(st, step) && Kept(st, host) && Timely(st, host) && host in st.nodes
    requires match step
             case BootUpdate(h) => h != host
             case BootInsert(h) => h != host
             case BootRead(h, _) => h != host
             case TickUpdate(h) => h != host
             case TickInsert(h) => h != host
             case Fail(h) => h != host
             case Stop(h) => h != host
             case _ => true
    ensures Kept(Apply(st, step), host)
  {
    var after := Apply(st, step);
    var node := st.nodes[host];
    assert NodeInv(st.machines, st.nextId, host, node);
    assert after.nodes[host] == node;
    forall id | id in st.machines && st.machines[id] == Machine(host, node.touched)
      ensures id in after.machines && after.machines[id] == Machine(host, node.touched)
    {
      if step.TickUpdate? {
        assert NodeInv(st.machines, st.nextId, step.host, st.nodes[step.host]);
      }
    }
  }

  /** A node that has been heard of within ten minutes keeps its row through any step. */
  lemma StepKeepsRow(st: State, step: Step, host: string)
    requires Inv(st) && Enabled(st, step) && Kept(st, host) && Timely(st, host)
    ensures Kept(Apply(st, step), host)
  {
    match step
    case BootUpdate(h) => if h == host { OwnStepKeepsRow(st, step, host); }
      else if host in st.nodes { OtherStepKeepsRow(st, step, host); }
    case BootInsert(h) => if h == host { OwnStepKeepsRow(st, step, host); }
      else if host in st.nodes { OtherStepKeepsRow(st, step, host); }
    case BootRead(h, _) => if h == host { OwnStepKeepsRow(st, step, host); }
      else if host in st.nodes { OtherStepKeepsRow(st, step, host); }
    case TickUpdate(h) => if h == host { OwnStepKeepsRow(st, step, host); }
      else if host in st.nodes { OtherStepKeepsRow(st, step, host); }
    case TickInsert(h) => if h != host && host in st.nodes { OtherStepKeepsRow(st, step, host); }
    case Fail(h) => if h != host && host in st.nodes { OtherStepKeepsRow(st, step, host); }
    case Stop(h) => if h != host && host in st.nodes { OtherStepKeepsRow(st, step, host); }
    case _ => if host in st.nodes { OtherStepKeepsRow(st, step, host); }
  }

  /** Over any run in which the node's successful ticks are less than ten minutes apart, its row is never reaped. */
  lemma {:induction false} TimelyNodeIsNeverReaped(st: State, host: string, steps: seq<Step>)
    requires Inv(st) && Legal(st, steps) && Kept(st, host) && TimelyRun(st, host, steps)
    ensures Kept(Run(st, steps), host)
    decreases |steps|
  {
    if steps != [] {
      StepKeeps(st, steps[0]);
      StepKeepsRow(st, steps[0], host);
      TimelyNodeIsNeverReaped(Apply(st, steps[0]), host, steps[1..]);
    }
  }

  lemma ClaimStaysOneStep(st: State, host: string, step: Step, task: int)
    requires Inv(st) && Enabled(st, step) && Kept(st, host) && Timely(st, host)
    requires host in st.nodes && st.nodes[host].phase.Up? && task in st.tasks
             && st.tasks[task] == Some(st.nodes[host].phase.id)
    requires step != Release(task) && step != Stop(host)
    ensures var after := Apply(st, step);
            && task in after.tasks && after.tasks[task] == st.tasks[task]
            && host in after.nodes && after.nodes[host].phase == st.nodes[host].phase
  {
    assert st.machines[st.nodes[host].phase.id] == Machine(host, st.nodes[host].touched);
  }

  /** So over any such run its tasks stay its own, until they are released or the node stops. */
  lemma {:induction false} ClaimStays(st: State, host: string, steps: seq<Step>, task: int)
    requires Inv(st) && Legal(st, steps) && Kept(st, host) && TimelyRun(st, host, steps)
    requires host in st.nodes && st.nodes[host].phase.Up? && task in st.tasks
             && st.tasks[task] == Some(st.nodes[host].phase.id)
    requires Release(task) !in steps && Stop(host) !in steps
    ensures var after := Run(st, steps);
            && task in after.tasks && after.tasks[task] == st.tasks[task]
            && host in after.nodes && after.nodes[host].phase == st.nodes[host].phase
    decreases |steps|
  {
    if steps != [] {
      ClaimStaysOneStep(st, host, steps[0], task);
      StepKeeps(st, steps[0]);
      StepKeepsRow(st, steps[0], host);
      ClaimStays(Apply(st, steps[0]), host, steps[1..], task);
    }
  }

  /** A claim makes the node's row the owner of the task, and changes nothing else. */
  lemma ClaimTakes(st: State, task: int, host: string)
    requires Enabled(st, Claim(task, host))
    ensures var after := Apply(st, Claim(task, host));
            && after == st.(tasks := after.tasks) && after.tasks.Keys == st.tasks.Keys
            && after.tasks[task].Some? && after.tasks[task].value in st.machines
            && after.tasks[task] == Some(st.nodes[host].phase.id)
            && forall t | t in st.tasks && t != task :: after.tasks[t] == st.tasks[t]
  {}

  /**
   Ten silent minutes are enough for the reaper, which also takes away what the node owned; its
   claims fail from then on.
   */
  lemma SilentNodeMayBeReaped(st: State, host: string, task: int)
    requires Inv(st) && Kept(st, host) && host in st.nodes && st.nodes[host].phase.Up? && !Timely(st, host)
    requires task in st.tasks && st.tasks[task] == Some(st.nodes[host].phase.id)
    ensures var reap := Reap({st.nodes[host].phase.id});
            && Enabled(st, reap)
            && var after := Apply(st, reap);
            && !HasRow(after.machines, host) && after.tasks[task] == None && !Enabled(after, Claim(task, host))
  {
    assert NodeInv(st.machines, st.nextId, host, st.nodes[host]);
  }

  /** After a reap the next tick that gets through restores the row under the same id, and it is the host's only one. */
  lemma NextTickHeals(st: State, host: string)
    requires Inv(st) && host in st.nodes && st.nodes[host].phase.Up?
    ensures var id := st.nodes[host].phase.id;
            var updated := Apply(st, TickUpdate(host));
            var after := if id in st.machines then updated else Apply(updated, TickInsert(host));
            && Inv(after) && Kept(after, host) && Timely(after, host)
            && after.nodes[host].phase == Up(id)
            && forall m :: m in after.machines && after.machines[m].host == host <==> m == id
  {
    var id := st.nodes[host].phase.id;
    assert NodeInv(st.machines, st.nextId, host, st.nodes[host]);
    StepKeeps(st, TickUpdate(host));
    var updated := Apply(st, TickUpdate(host));
    if id !in st.machines {
      StepKeeps(updated, TickInsert(host));
    }
    var after := if id in st.machines then updated else Apply(updated, TickInsert(host));
    assert NodeInv(after.machines, after.nextId, host, after.nodes[host]);
    assert after.machines[id] == Machine(host, st.now);
  }

  lemma HealingSurvives(st: State, host: string, step: Step)
    requires Inv(st) && Enabled(st, step) && host in st.nodes && st.nodes[host].phase.Healing?
    requires step != TickInsert(host) && step != Fail(host) && step != Stop(host)
    ensures host in Apply(st, step).nodes && Apply(st, step).nodes[host].phase == st.nodes[host].phase
  {
  }

  /** Whatever others do between the two statements of that tick, the row is still restored under the old id. */
  lemma {:induction false} HealsDespiteOthers(st: State, host: string, others: seq<Step>)
    requires Inv(st) && host in st.nodes && st.nodes[host].phase.Healing? && Legal(st, others)
    requires TickInsert(host) !in others && Fail(host) !in others && Stop(host) !in others
    ensures Enabled(Run(st, others), TickInsert(host))
    ensures var after := Apply(Run(st, others), TickInsert(host));
            && Inv(after) && Kept(after, host) && after.nodes[host].phase == Up(st.nodes[host].phase.id)
            && forall m :: m in after.machines && after.machines[m].host == host <==> m == st.nodes[host].phase.id
    decreases |others|
  {
    if others == [] {
      StepKeeps(st, TickInsert(host));
      var after := Apply(st, TickInsert(host));
      assert NodeInv(st.machines, st.nextId, host, st.nodes[host]);
      assert after.machines[st.nodes[host].phase.id] == Machine(host, st.now);
      assert NodeInv(after.machines, after.nextId, host, after.nodes[host]);
    } else {
      HealingSurvives(st, host, others[0]);
      StepKeeps(st, others[0]);
      HealsDespiteOthers(Apply(st, others[0]), host, others[1..]);
    }
  }

  // ---- The engine's own methods -------------------------------------------------------

  /** Rows of other nodes are left as they were, up to their time of contact. */
  predicate OthersKept(before: map<int, Machine>, after: map<int, Machine>) {
    forall m | m in before :: m in after && after[m].host == before[m].host
  }

  /** A booting node once its row is written: the row it will read back is the only one. */
  predicate Booted(before: State, st: State, host: string) {
    && Inv(st) && st.tasks == before.tasks && st.now == before.now && OthersKept(before.machines, st.machines)
    && st.nodes == before.nodes[host := Node(Reading, st.now)]
    && exists id | id in st.machines :: NewestOf(st.machines, host, id) && st.machines[id].contact == st.now
  }

  lemma BootedByUpdate(st: State, host: string)
    requires Inv(st) && host !in st.nodes
    ensures var after := AfterBootUpdate(st, host);
            && Inv(after) && after.tasks == st.tasks && after.now == st.now && OthersKept(st.machines, after.machines)
            && (if HasRow(st.machines, host) then Booted(st, after, host)
                else after.nodes == st.nodes[host := Node(Inserting, st.now)])
  {
    StepKeeps(st, BootUpdate(host));
    if id :| id in st.machines && st.machines[id].host == host {
      assert NewestOf(AfterBootUpdate(st, host).machines, host, id);
    }
  }

  lemma BootedByInsert(before: State, st: State, host: string)
    requires Inv(st) && st.tasks == before.tasks && st.now == before.now && OthersKept(before.machines, st.machines)
    requires st.nodes == before.nodes[host := Node(Inserting, st.now)]
    ensures Booted(before, AfterBootInsert(st, host), host)
  {
    StepKeeps(st, BootInsert(host));
    assert NodeInv(st.machines, st.nextId, host, st.nodes[host]);
    assert NewestOf(AfterBootInsert(st, host).machines, host, st.nextId);
  }

  lemma ReadBack(before: State, st: State, host: string, id: int)
    requires Booted(before, st, host) && NewestOf(st.machines, host, id)
    ensures var after := WithNode(st, host, Node(Up(id), st.now));
            && Inv(after) && Kept(after, host)
            && forall m :: m in after.machines && after.machines[m].host == host <==> m == id
  {
    StepKeeps(st, BootRead(host, id));
  }

  function AfterTick(st: State, host: string, insertOk: bool): State
    requires host in st.nodes && st.nodes[host].phase.Up?
  {
    var updated := AfterTickUpdate(st, host);
    if updated.nodes[host].phase.Up? then updated
    else if insertOk then AfterTickInsert(updated, host)
    else AfterFail(updated, host)
  }

  /** A tick whose UPDATE gets through, on its own. */
  lemma TickOutcome(st: State, host: string, insertOk: bool)
    requires Inv(st) && host in st.nodes && st.nodes[host].phase.Up?
    ensures var after := AfterTick(st, host, insertOk);
            && Inv(after) && after.nodes.Keys == st.nodes.Keys && after.nodes[host].phase == st.nodes[host].phase
            && (insertOk || st.nodes[host].phase.id in st.machines ==> Kept(after, host) && Timely(after, host))
            && (!insertOk && st.nodes[host].phase.id !in st.machines ==> after == st)
  {
    if !insertOk && st.nodes[host].phase.id !in st.machines {
      assert AfterTick(st, host, insertOk).nodes == st.nodes;
    } else {
      NextTickHeals(st, host);
      assert st.nodes[host].phase.id in st.machines ==> AfterTick(st, host, insertOk) == Apply(st, TickUpdate(host));
      assert st.nodes[host].phase.id !in st.machines ==>
          AfterTick(st, host, insertOk) == Apply(Apply(st, TickUpdate(host)), TickInsert(host));
    }
  }

  /** An engine for one host, on the tables it shares with other writers. */
  class Engine {
    var st: State
    const host: string

    constructor (st: State, host: string)
      ensures this.st == st && this.host == host
    {
      this.st, this.host := st, host;
    }

    /**
     recordMachineRow: update the host's rows, insert one if there was none, read the newest id
     back. The three flags are whether the statements succeed.
     */
    method RecordMachineRow(updateOk: bool, insertOk: bool, selectOk: bool) returns (id: Option<int>)
      requires Inv(st) && host !in st.nodes
      modifies this
      ensures Inv(st) && st.tasks == old(st.tasks) && OthersKept(old(st.machines), st.machines)
      ensures match id
              case Some(id) =>
                && host in st.nodes && st.nodes[host] == Node(Up(id), st.now) && Kept(st, host)
                && forall m :: m in st.machines && st.machines[m].host == host <==> m == id
              case None => st.nodes == old(st.nodes) && !(updateOk && insertOk && selectOk)
      ensures (!updateOk ==> st == old(st))
              && (id.Some? ==> updateOk && selectOk && (insertOk || HasRow(old(st.machines), host)))
    {
      if !updateOk {
        return None;
      }
      ghost var before := st;
      BootedByUpdate(st, host);
      st := AfterBootUpdate(st, host);
      if st.nodes[host].phase == Inserting {
        if !insertOk {
          Abort(before);
          return None;
        }
        BootedByInsert(before, st, host);
        st := AfterBootInsert(st, host);
      }
      if !selectOk {
        Abort(before);
        return None;
      }
      var newest :| newest in st.machines.Keys && NewestOf(st.machines, host, newest);
      ReadBack(before, st, host, newest);
      st := WithNode(st, host, Node(Up(newest), st.now));
      id := Some(newest);
    }

    /** A statement of the boot failed: Start reports the error, and the node is not up. */
    method Abort(ghost before: State)
      requires Inv(st) && host in st.nodes && !HasId(st.nodes[host])
      requires st.nodes == before.nodes[host := st.nodes[host]] && host !in before.nodes
      modifies this
      ensures Inv(st) && st == old(st).(nodes := before.nodes)
    {
      StepKeeps(st, Fail(host));
      st := AfterFail(st, host);
    }

    /** One tick of the keepalive, its statements succeeding as the flags say. */
    method Tick(updateOk: bool, insertOk: bool)
      requires Inv(st) && host in st.nodes && st.nodes[host].phase.Up?
      modifies this
      ensures Inv(st) && st == if updateOk then AfterTick(old(st), host, insertOk) else old(st)
    {
      if !updateOk {
        return;
      }
      TickOutcome(st, host, insertOk);
      st := AfterTickUpdate(st, host);
      if st.nodes[host].phase.Healing? {
        st := if insertOk then AfterTickInsert(st, host) else AfterFail(st, host);
      }
    }
  }
}
