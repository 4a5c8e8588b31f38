/** Life cycle of one engine node: its numbered states, the checkpoint it has
    collected from its inputs, and its checkpoint file. */
module Nodes {
  import opened Options
  import opened Commands

  datatype FtState = READY | CONNECTED | REBUILDING | RESET | INIT | STARTED | CHECKPOINT | IDLE | STOPPED

  /** Content of the checkpoint file. Torn is a text that starts with a brace and
      does not parse; Legacy is the line format, whose configuration may be empty. */
  datatype File = Missing | Empty | Torn | Saved(checkpoint: string, config: string)
      | Legacy(checkpoint: string, config: string)

  datatype Message<D> = Update(d: D) | Withdraw(d: D) | Checkpoint(value: string)

  datatype Node<D> = Node(
    inputs: seq<string>,
    hasOutput: bool,
    config: string,                          // class and configuration, as text
    state: FtState,
    inputsCheckpoint: map<string, string>,
    lastCheckpoint: Option<string>,
    file: File,
    log: seq<Message<D>>,                    // everything published on the node's topic
    wrongState: nat)                         // statistics['error.wrong_state']

  /** How a handler ends: normally, or with an assertion raised before any change. */
  datatype Outcome = Handled | Raised

  predicate Running(s: FtState) { s == STARTED || s == CHECKPOINT }

  predicate IsData<D>(ms: seq<Message<D>>) {
    forall k :: 0 <= k < |ms| ==> !ms[k].Checkpoint?
  }

  function Publish<D>(n: Node<D>, ms: seq<Message<D>>): Node<D> {
    if n.hasOutput then n.(log := n.log + ms) else n
  }

  /** update and withdraw: out is what the subclass's handler emits in response. */
  function OnData<D>(n: Node<D>, source: string, out: seq<Message<D>>): (Node<D>, Outcome) {
    if !Running(n.state) then (n.(wrongState := n.wrongState + 1), Handled)
    else if source in n.inputsCheckpoint then (n, Raised)
    else (Publish(n, out), Handled)
  }

  function GoIdle<D>(n: Node<D>, value: string): Node<D> {
    Publish(n.(state := IDLE, file := Saved(value, n.config), lastCheckpoint := Some(value)), [Checkpoint(value)])
  }

  function OnCheckpoint<D>(n: Node<D>, source: string, value: string): (Node<D>, Outcome) {
    if !Running(n.state) then (n, Raised)
    else if exists s :: s in n.inputsCheckpoint && n.inputsCheckpoint[s] != value then (n, Raised)
    else
      var m := n.(inputsCheckpoint := n.inputsCheckpoint[source := value]);
      if |m.inputsCheckpoint| != |n.inputs| then (m.(state := CHECKPOINT), Handled)
      else (GoIdle(m, value), Handled)
  }

  /** The master's checkpoint command; only sources act on it. */
  function OnMgmtCheckpoint<D>(n: Node<D>, value: string): Node<D> {
    if |n.inputs| != 0 then n else GoIdle(n, value)
  }

  /** read_checkpoint: None when it raises (the first character of an empty file). */
  function ReadCheckpoint(file: File, config: string): Option<Option<string>> {
    match file
    case Missing => Some(None)
    case Empty => None
    case Torn => Some(None)
    case Saved(c, saved) => Some(if saved != "" && saved != config then None else Some(c))
    case Legacy(c, saved) => Some(if saved != "" && saved != config then None else Some(c))
  }

  /** The constructor; None when reading the checkpoint raises. */
  function Boot<D>(config: string, file: File): Option<Node<D>> {
    match ReadCheckpoint(file, config)
    case None => None
    case Some(last) => Some(Node([], false, config, READY, map[], last, file, [], 0))
  }

  function Connect<D>(n: Node<D>, inputs: seq<string>, output: bool): (Node<D>, Outcome) {
    if n.state != READY then (n, Raised)
    else (n.(inputs := inputs, hasOutput := output, inputsCheckpoint := map[], state := CONNECTED), Handled)
  }

  /** The start-up commands; each removes the checkpoint file and ends in INIT. */
  function OnCommand<D>(n: Node<D>, c: Command): Node<D> {
    n.(state := INIT, file := Missing)
  }

  function Start<D>(n: Node<D>): (Node<D>, Outcome) {
    if n.state != INIT then (n, Raised) else (n.(state := STARTED), Handled)
  }

  function Stop<D>(n: Node<D>): (Node<D>, Outcome) {
    if n.state != IDLE && n.state != STARTED then (n, Raised) else (n.(state := STOPPED), Handled)
  }

  /** The checkpoint file on disk, which outlives the node object. */
  class Disk {
    var file: File
    constructor (f: File)
      ensures file == f
    {
      file := f;
    }
  }

  class BaseFT<D> {
    const config: string
    const disk: Disk
    var inputs: seq<string>
    var hasOutput: bool
    var state: FtState
    var inputsCheckpoint: map<string, string>
    var lastCheckpoint: Option<string>
    var log: seq<Message<D>>
    var wrongState: nat

    ghost function Value(): Node<D>
      reads this, disk
    {
      Node(inputs, hasOutput, config, state, inputsCheckpoint, lastCheckpoint, disk.file, log, wrongState)
    }

    /** Creation fails where the original's constructor raises: on an empty checkpoint file. */
    constructor (config: string, disk: Disk)
      requires disk.file != Empty
      ensures this.config == config && this.disk == disk
      ensures Some(Value()) == Boot(config, disk.file)
    {
      this.config, this.disk := config, disk;
      inputs, hasOutput, state := [], false, READY;
      inputsCheckpoint, log, wrongState := map[], [], 0;
      match disk.file {
        case Missing => lastCheckpoint := None;
        case Torn => lastCheckpoint := None;
        case Saved(c, saved) => lastCheckpoint := if saved != "" && saved != config then None else Some(c);
        case Legacy(c, saved) => lastCheckpoint := if saved != "" && saved != config then None else Some(c);
      }
    }

    method ConnectTo(inputs: seq<string>, output: bool) returns (r: Outcome)
      modifies this
      ensures (Value(), r) == Connect(old(Value()), inputs, output)
    {
      if state != READY {
        return Raised;
      }
      this.inputs := inputs;
      inputsCheckpoint := map[];
      hasOutput := output;
      state := CONNECTED;
      r := Handled;
    }

    method CreateCheckpoint(value: string)
      modifies disk
      ensures disk.file == Saved(value, config)
    {
      disk.file := Saved(value, config);
    }

    method RemoveCheckpoint()
      modifies disk
      ensures disk.file == Missing
    {
      disk.file := Missing;
    }

    method Emit(ms: seq<Message<D>>)
      modifies this`log
      ensures Value() == Publish(old(Value()), ms)
    {
      if !hasOutput {
        return;
      }
      log := log + ms;
    }

    method ReceiveData(source: string, out: seq<Message<D>>) returns (r: Outcome)
      modifies this
      ensures (Value(), r) == OnData(old(Value()), source, out)
      ensures log == if && (old(state) == STARTED || old(state) == CHECKPOINT)
                        && source !in old(inputsCheckpoint) && hasOutput then old(log) + out else old(log)
    {
      if state != STARTED && state != CHECKPOINT {
        wrongState := wrongState + 1;
        return Handled;
      }
      if source in inputsCheckpoint {
        return Raised;
      }
      Emit(out);
      r := Handled;
    }

    method ReceiveCheckpoint(source: string, value: string) returns (r: Outcome)
      modifies this, disk
      ensures (Value(), r) == OnCheckpoint(old(Value()), source, value)
    {
      if state != STARTED && state != CHECKPOINT {
        return Raised;
      }
      var todo := inputsCheckpoint.Keys;
      while todo != {}
        invariant todo <= inputsCheckpoint.Keys
        invariant forall s :: s in inputsCheckpoint && s !in todo ==> inputsCheckpoint[s] == value
        invariant Value() == old(Value())
      {
        var s :| s in todo;
        if inputsCheckpoint[s] != value {
          return Raised;
        }
        todo := todo - {s};
      }
      inputsCheckpoint := inputsCheckpoint[source := value];
      if |inputsCheckpoint| != |inputs| {
        state := CHECKPOINT;
        return Handled;
      }
      state := IDLE;
      CreateCheckpoint(value);
      lastCheckpoint := Some(value);
      Emit([Checkpoint(value)]);
      r := Handled;
    }

    method MgmtbusCheckpoint(value: string)
      modifies this, disk
      ensures Value() == OnMgmtCheckpoint(old(Value()), value)
    {
      if |inputs| != 0 {
        return;
      }
      state := IDLE;
      CreateCheckpoint(value);
      lastCheckpoint := Some(value);
      Emit([Checkpoint(value)]);
    }

    method MgmtbusCommand(c: Command)
      modifies this, disk
      ensures Value() == OnCommand(old(Value()), c)
    {
      match c {
        case Initialize =>
          state := INIT;
          RemoveCheckpoint();
        case Rebuild =>
          state := REBUILDING;
          RemoveCheckpoint();
          state := INIT;
        case Reset =>
          state := RESET;
          RemoveCheckpoint();
          state := INIT;
      }
    }

    method StartNode() returns (r: Outcome)
      modifies this`state
      ensures (Value(), r) == Start(old(Value()))
    {
      if state != INIT {
        return Raised;
      }
      state := STARTED;
      r := Handled;
    }

    method StopNode() returns (r: Outcome)
      modifies this`state
      ensures (Value(), r) == Stop(old(Value()))
    {
      if state != IDLE && state != STARTED {
        return Raised;
      }
      state := STOPPED;
      r := Handled;
    }
  }
}
