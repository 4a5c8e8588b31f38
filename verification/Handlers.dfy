/** The handlers of Nodes cut at every change of the checkpoint file: the process
    can die, and other nodes can act, between any two steps. */
module Handlers {
  import opened Options
  import opened Commands
  import opened Nodes

  /** What a handler has still to do. */
  datatype Phase =
    | Steady
    | Removing                      // start-up command: file to be removed
    | Finishing                     // start-up command: state to be set to INIT
    | Opening(value: string)        // IDLE, checkpoint file to be opened (which empties it)
    | Writing(value: string)        // file open and empty
    | Announcing(value: string)     // file written, checkpoint to be recorded and published

  datatype Process<D> = Process(node: Node<D>, phase: Phase)

  function Advance<D>(p: Process<D>): Process<D> {
    var n := p.node;
    match p.phase
    case Steady => p
    case Removing => Process(n.(file := Missing), Finishing)
    case Finishing => Process(n.(state := INIT), Steady)
    case Opening(v) => Process(n.(file := Empty), Writing(v))
    case Writing(v) => Process(n.(file := Saved(v, n.config)), Announcing(v))
    case Announcing(v) => Process(Publish(n.(lastCheckpoint := Some(v)), [Checkpoint(v)]), Steady)
  }

  function EnterCommand(c: Command): FtState {
    match c case Initialize => INIT case Rebuild => REBUILDING case Reset => RESET
  }

  function BeginCommand<D>(n: Node<D>, c: Command): Process<D> {
    Process(n.(state := EnterCommand(c)), Removing)
  }

  /** The master's checkpoint command, up to the change of the file. */
  function BeginMgmtCheckpoint<D>(p: Process<D>, value: string): Process<D> {
    if |p.node.inputs| != 0 then p else Process(p.node.(state := IDLE), Opening(value))
  }

  /** A checkpoint from an input, up to the change of the file. */
  function BeginCheckpoint<D>(p: Process<D>, source: string, value: string): (Process<D>, Outcome) {
    var (n, r) := OnCheckpoint(p.node, source, value);
    if Running(p.node.state) && n.state == IDLE
    then (Process(p.node.(inputsCheckpoint := n.inputsCheckpoint, state := IDLE), Opening(value)), r)
    else (Process(n, p.phase), r)
  }

  function Receive<D>(p: Process<D>, source: string, m: Message<D>, out: seq<Message<D>>): (Process<D>, Outcome) {
    match m
    case Checkpoint(w) => BeginCheckpoint(p, source, w)
    case _ => var (n, r) := OnData(p.node, source, out); (Process(n, p.phase), r)
  }

  // ---------- uninterrupted, the cut handlers are the whole ones ----------

  /** A start-up command works from any state. */
  lemma CommandAgrees<D>(n: Node<D>, c: Command)
    ensures Advance(Advance(BeginCommand(n, c))) == Process(OnCommand(n, c), Steady)
    ensures OnCommand(n, c).state == INIT && OnCommand(n, c).file == Missing
  {
  }

  lemma GoIdleAgrees<D>(n: Node<D>, v: string)
    requires n.state == IDLE
    ensures Advance(Advance(Advance(Process(n, Opening(v))))) == Process(GoIdle(n, v), Steady)
  {
  }

  /** A source obeys the master's checkpoint command in any state. */
  lemma MgmtCheckpointAgrees<D>(n: Node<D>, v: string)
    requires n.inputs == []
    ensures Advance(Advance(Advance(BeginMgmtCheckpoint(Process(n, Steady), v)))) ==
            Process(OnMgmtCheckpoint(n, v), Steady)
    ensures var m := OnMgmtCheckpoint(n, v);
            && m.state == IDLE && m.file == Saved(v, n.config) && m.lastCheckpoint == Some(v)
            && m.log == if n.hasOutput then n.log + [Checkpoint(v)] else n.log
  {
    GoIdleAgrees(n.(state := IDLE), v);
  }

  lemma CheckpointAgrees<D>(n: Node<D>, source: string, v: string)
    requires Running(n.state) && OnCheckpoint(n, source, v).0.state == IDLE
    ensures var (p, r) := BeginCheckpoint(Process(n, Steady), source, v);
            (Advance(Advance(Advance(p))), r) ==
            (Process(OnCheckpoint(n, source, v).0, Steady), OnCheckpoint(n, source, v).1)
  {
    var m := n.(inputsCheckpoint := n.inputsCheckpoint[source := v]);
    LastInput(n, source, v);
    GoIdleAgrees(m.(state := IDLE), v);
  }

  lemma LastInput<D>(n: Node<D>, source: string, v: string)
    requires Running(n.state) && OnCheckpoint(n, source, v).0.state == IDLE
    ensures OnCheckpoint(n, source, v) == (GoIdle(n.(inputsCheckpoint := n.inputsCheckpoint[source := v]), v), Handled)
  {
  }
}
