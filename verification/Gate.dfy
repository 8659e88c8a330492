/** The gate that lets a boot restart only when no external root is live: its state, its operations between two
    suspension points, and the classes that update it in place. */
module GateRules {
  import opened Text

  /** What a gate is built with. */
  datatype Config = Config(supervised: bool, executes: bool, hasChannel: bool)

  /** The shutdown event with the error of the first request, if it came with one. */
  datatype Shutdown = Running | Requested(error: Option<Str>)

  /** `reopens` names the current reopen event: event `e` is set exactly when `e < reopens`. */
  datatype Gate = Gate(
    request: Option<Str>, permits: int, accepting: bool, drained: bool, reopens: nat, committed: bool,
    shutdown: Shutdown)

  datatype Rejection =
    | InvalidId | NotSupervised | NotExecuting | Pending | Stale | NoChannel | Closed | Released | Foreign | Unbalanced

  datatype Outcome = Done | Rejected(why: Rejection)

  const OPEN: Gate := Gate(None, 0, true, true, 0, false, Running)

  predicate Accepting(g: Gate) {
    g.accepting && g.shutdown.Running?
  }

  predicate ValidId(id: Str) {
    id != [] && Strip(id) == id
  }

  /** `request_id in {"", self._request_id or ""}` */
  predicate Owns(g: Gate, id: Str) {
    id == [] || g.request == Some(id)
  }

  function PrepareStop(g: Gate, id: Str): (Gate, Outcome) {
    if !ValidId(id) then (g, Rejected(InvalidId))
    else if g.request.Some? then (g, if g.request.value == id then Done else Rejected(Pending))
    else (g.(request := Some(id), accepting := false), Done)
  }

  function Prepare(c: Config, g: Gate, id: Str): (Gate, Outcome) {
    if !c.supervised then (g, Rejected(NotSupervised))
    else if !c.executes then (g, Rejected(NotExecuting))
    else PrepareStop(g, id)
  }

  function CheckStop(g: Gate, id: Str): Outcome {
    if g.request != Some(id) || g.accepting then Rejected(Stale) else Done
  }

  function Abort(g: Gate, id: Str): Gate {
    if g.request != Some(id) then g
    else g.(request := None, accepting := true, committed := false, reopens := g.reopens + 1)
  }

  /** Only the first request leaves its error. */
  function RequestShutdown(c: Config, g: Gate, error: Option<Str>): (Gate, Outcome) {
    if !c.executes then (g, Rejected(NotExecuting))
    else (if g.shutdown.Running? then g.(shutdown := Requested(error)) else g, Done)
  }

  /** `self._request_id or ""` */
  function OrEmpty(request: Option<Str>): Str {
    if request.Some? then request.value else []
  }

  /** The gate side of taking one permit. */
  function Count(g: Gate): Gate {
    g.(permits := g.permits + 1, drained := false)
  }

  /** `acquire`: the new permit carries the pending request id, or the empty id. */
  function Acquire(g: Gate): (Gate, Option<Str>) {
    if !Accepting(g) then (g, None)
    else (Count(g), Some(OrEmpty(g.request)))
  }

  function AcquireChild(g: Gate, id: Str): (Gate, Outcome) {
    if !Owns(g, id) then (g, Rejected(Foreign)) else (Count(g), Done)
  }

  function Release(g: Gate, id: Str): (Gate, Outcome) {
    if g.permits <= 0 then (g, Rejected(Unbalanced))
    else if !Owns(g, id) then (g, Rejected(Foreign))
    else (g.(permits := g.permits - 1, drained := g.drained || g.permits == 1), Done)
  }

  /** The stretch of `commit` up to its wait: refused, finished already, or ready to wait for the drain. */
  datatype Begun = Refused(why: Rejection) | AlreadyCommitted | Waits

  function BeginCommit(c: Config, g: Gate, id: Str): Begun {
    if !c.executes then Refused(NotExecuting)
    else if g.request != Some(id) then Refused(Stale)
    else if g.committed then AlreadyCommitted
    else if !c.hasChannel then Refused(NoChannel)
    else Waits
  }

  /** The stretch after the wait; `written` tells whether the channel took the frame. */
  function EndCommit(g: Gate, id: Str, written: bool): Gate {
    if written then g.(committed := true) else Abort(g, id)
  }
}
