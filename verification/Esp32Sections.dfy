/** The critical sections of Esp32Client, one function per `with self._state_lock` block.

    A socket is named by the generation that installed it: each candidate socket is
    installed at most once, and nothing looks at it before.  `_endpoint`,
    `_receiver_thread` and `_receiver_stop` are set and cleared together with `_socket`
    and are not kept apart. */
module Esp32Sections {
  import opened Options

  type Gen = nat
  type CmdId = nat

  datatype Client = Client(socket: Option<Gen>, generation: Gen, pending: Option<CmdId>)

  datatype Registration = NotConnected | AlreadyPending | Accepted
  datatype AckRouting = Stale | Unexpected | Completes(id: CmdId)
  datatype Teardown = Skipped | TornDown(hadSocket: bool, orphan: Option<CmdId>)

  const DISCONNECTED := Client(None, 0, None)

  function RegisterSection(c: Client, id: CmdId): (Client, Registration) {
    if c.socket.None? then (c, NotConnected)
    else if c.pending.Some? then (c, AlreadyPending)
    else (c.(pending := Some(id)), Accepted)
  }

  /** The re-check after an expired wait: true when the command really timed out. */
  function ExpireSection(c: Client, id: CmdId, completed: bool): (Client, bool) {
    if !completed && c.pending == Some(id) then (c.(pending := None), true) else (c, false)
  }

  /** The test a receiver of generation g makes before it routes a line. */
  predicate Current(c: Client, g: Gen) {
    g == c.generation && c.socket.Some?
  }

  function AckSection(c: Client, g: Gen): (Client, AckRouting) {
    if !Current(c, g) then (c, Stale)
    else match c.pending
      case None => (c, Unexpected)
      case Some(id) => (c.(pending := None), Completes(id))
  }

  function LostSection(c: Client, g: Gen): (Client, Teardown) {
    if g != c.generation || c.socket != Some(g) then (c, Skipped)
    else (c.(socket := None, pending := None), TornDown(true, c.pending))
  }

  function DisconnectSection(c: Client, g: Gen): (Client, Teardown) {
    if g != c.generation then (c, Skipped)
    else (c.(socket := None, pending := None), TornDown(c.socket.Some?, c.pending))
  }

  /** connect() after its disconnect(): the pending slot is not touched. */
  function InstallSection(c: Client): Client {
    c.(socket := Some(c.generation + 1), generation := c.generation + 1)
  }
}
