/** The send path and the closing of one connected TCP socket, skynet/skynet-src/socket_server.c, as a state
    machine.

    The socket thread executes commands from a pipe and reacts to events; any number of workers send and
    close.  Every step is one read or write of shared state, one system call, or what the source does
    under dw_lock without being observed.  System calls have any result. */
module Socket {

  datatype Option<T> = None | Some(value: T)

  type Tid = nat

  /** High-priority packages are numbered by their sender, low-priority ones in the order in which they
      enter the pipe. */
  datatype Lane = High(sender: Tid) | Low
  datatype Pkg = Pkg(lane: Lane, num: nat, size: nat)

  /** A package in a list, of which `off` bytes have been written. */
  datatype Buf = Buf(pkg: Pkg, off: nat)

  datatype Type = Connected | HalfcloseRead | HalfcloseWrite | Invalid

  datatype Cmd = SendCmd(pkg: Pkg) | CloseCmd(shutdown: bool) | WakeCmd

  /** What the socket thread reports. */
  datatype Event = DataEvent | CloseEvent | ErrEvent

  /** Byte k of a package, on its way to the peer. */
  datatype Unit = Unit(pkg: Pkg, k: nat)

  /** Consecutive bytes of one package: the first n. */
  datatype Part = Part(pkg: Pkg, n: nat)

  datatype Lock = Free | ByServer | ByWorker(t: Tid)

  const MAX_SENDING: nat := 0xffff

  /** socket_server_send and its like. */
  datatype WorkerPc =
    | Idle
    | First(p: Pkg)         // can_direct_write, without the lock: about to load `sending`
    | TryLock(p: Pkg)
    | ReadHigh(p: Pkg)      // can_direct_write, with the lock
    | ReadLow(p: Pkg)
    | ReadDw(p: Pkg)
    | ReadSending(p: Pkg)
    | ReadType(p: Pkg)
    | Write(p: Pkg)
    | SetDw(p: Pkg, n: nat) // wrote n bytes, not all; about to leave the rest to the socket thread
    | UnlockDone
    | UnlockWake
    | Wake
    | UnlockBusy(p: Pkg)
    | Inc(p: Pkg)           // inc_sending_ref
    | Pipe(p: Pkg)
    | IncLow(size: nat)     // socket_server_send_lowpriority
    | PipeLow(size: nat)

  /** Why the socket thread asks whether there is nothing more to send. */
  datatype Why = ToClose(halfRead: bool) | AfterEof

  datatype ServerPc =
    | Poll
    | DecSending
    | AskDw(why: Why)
    | AskSending(why: Why)
    | SetClosing(halfRead: bool)
    | CloseRead
    | SendHigh
    | SendLow
    | Drained
    | CloseWrite
    | FreeLists(raise: bool)
    | Shut(raise: bool)
    | Unlock

  /** The type field, the closing flag and what has been reported. */
  datatype Status = Status(kind: Type, closing: bool, log: seq<Event>)

  /** What is waiting to be written, and whether the poller is asked for write events. */
  datatype Lists = Lists(high: seq<Buf>, low: seq<Buf>, wbSize: int, dw: Option<Buf>, armed: bool)

  /** What the peer sees; all but `wire` is for the proof. */
  datatype Trail = Trail(wire: seq<Unit>, parts: seq<Part>, torn: bool, broken: bool)

  /** The threads that send, how often each has called and how many low-priority packages there were. */
  datatype Senders = Senders(pcs: map<Tid, WorkerPc>, calls: map<Tid, nat>, tickets: nat)

  /** The pipe, and the low half of the `sending` field. */
  datatype Control = Control(pipe: seq<Cmd>, sending: nat)

  datatype Socket = Socket(
    status: Status, lists: Lists, lock: Lock, control: Control, server: ServerPc, senders: Senders, trail: Trail)

  const START := Socket(Status(Connected, false, []), Lists([], [], 0, None, false), Free, Control([], 0), Poll,
                        Senders(map[], map[], 0), Trail([], [], false, false))

  /** What a step leaves open. */
  datatype Act =
    | Go
    | Send(size: nat)
    | SendLowPriority(size: nat)
    | Close(shutdown: bool)
    | Busy                  // a racy check says no, or a lock is not obtained
    | Wrote(n: nat)         // write returned n
    | Again                 // write would block
    | Fatal                 // write failed
    | Command
    | CanWrite
    | Got(n: nat)           // read returned n
    | ReadError
    | Hangup                // end of file from the poller
    | PollError

  function PcOf(s: Socket, t: Tid): WorkerPc { if t in s.senders.pcs then s.senders.pcs[t] else Idle }

  function Calls(w: Senders, t: Tid): nat { if t in w.calls then w.calls[t] else 0 }

  function Moved(w: Senders, t: Tid, pc: WorkerPc): Senders { w.(pcs := w.pcs[t := pc]) }

  function At(s: Socket, t: Tid, pc: WorkerPc): Socket { s.(senders := Moved(s.senders, t, pc)) }

  function Rest(b: Buf): nat
  {
    if b.off <= b.pkg.size then b.pkg.size - b.off else 0
  }

  function Bytes(p: Pkg, from: nat, to: nat): (r: seq<Unit>)
    requires from <= to
    ensures |r| == to - from
  {
    seq(to - from, i requires 0 <= i < to - from => Unit(p, from + i))
  }

  /** Writing n bytes is the first progress of a package of which `off` were written. */
  predicate Starts(p: Pkg, off: nat, n: nat) { off == 0 && (n > 0 || p.size == 0) }

  /** The parts after n more bytes of a package of which `off` were written. */
  function AddPart(parts: seq<Part>, p: Pkg, off: nat, n: nat): seq<Part>
  {
    if Starts(p, off, n) then parts + [Part(p, n)]
    else if off == 0 || parts == [] then parts
    else parts[|parts| - 1 := Part(p, off + n)]
  }

  /** write(s->fd, ...): n bytes go to the peer. */
  function Written(w: Trail, p: Pkg, off: nat, n: nat): Trail
  {
    Trail(w.wire + Bytes(p, off, off + n), AddPart(w.parts, p, off, n), w.torn, w.broken || (w.torn && Starts(p, off, n)))
  }

  // ---- Workers ----

  function WorkerStep(s: Socket, t: Tid, a: Act): Socket
  {
    match PcOf(s, t)
    case Idle => Begin(s, t, a)
    case First(p) => At(s, t, if a.Busy? || s.control.sending != 0 then Inc(p) else TryLock(p))
    case TryLock(p) => if a.Busy? || s.lock != Free then At(s, t, Inc(p)) else At(s.(lock := ByWorker(t)), t, ReadHigh(p))
    case ReadHigh(p) => At(s, t, if s.lists.high != [] then UnlockBusy(p) else ReadLow(p))
    case ReadLow(p) => At(s, t, if s.lists.low != [] then UnlockBusy(p) else ReadDw(p))
    case ReadDw(p) => At(s, t, if s.lists.dw.Some? then UnlockBusy(p) else ReadSending(p))
    case ReadSending(p) => At(s, t, if s.control.sending != 0 then UnlockBusy(p) else ReadType(p))
    case ReadType(p) => At(s, t, if s.status.kind != Connected then UnlockBusy(p) else Write(p))
    case Write(p) => DirectWrite(s, t, p, if a.Wrote? && a.n <= p.size then a.n else 0)
    case SetDw(p, n) => At(s.(lists := s.lists.(dw := Some(Buf(p, n)))), t, UnlockWake)
    case UnlockDone => At(s.(lock := Free), t, Idle)
    case UnlockWake => At(s.(lock := Free), t, Wake)
    case Wake => At(s.(control := Put(s.control, WakeCmd)), t, Idle)
    case UnlockBusy(p) => At(s.(lock := Free), t, Inc(p))
    case Inc(p) => if s.control.sending < MAX_SENDING then At(s.(control := Counted(s.control)), t, Pipe(p)) else s
    case Pipe(p) => At(s.(control := Put(s.control, SendCmd(p))), t, Idle)
    case IncLow(size) => if s.control.sending < MAX_SENDING then At(s.(control := Counted(s.control)), t, PipeLow(size)) else s
    case PipeLow(size) =>
      s.(control := Put(s.control, SendCmd(Pkg(Low, s.senders.tickets, size))),
         senders := Moved(s.senders, t, Idle).(tickets := s.senders.tickets + 1))
  }

  function Put(c: Control, cmd: Cmd): Control { c.(pipe := c.pipe + [cmd]) }

  function Counted(c: Control): Control { c.(sending := c.sending + 1) }

  /** A call of socket_server_send, socket_server_send_lowpriority, socket_server_close or
      socket_server_shutdown. */
  function Begin(s: Socket, t: Tid, a: Act): Socket
  {
    match a
    case Send(size) =>
      if s.status.kind == Invalid || s.status.closing then s
      else
        var n := Calls(s.senders, t);
        s.(senders := Moved(s.senders, t, First(Pkg(High(t), n, size))).(calls := s.senders.calls[t := n + 1]))
    case SendLowPriority(size) => if s.status.kind == Invalid then s else At(s, t, IncLow(size))
    case Close(shutdown) => s.(control := Put(s.control, CloseCmd(shutdown)))
    case _ => s
  }

  /** The direct write; an error counts as nothing written. */
  function DirectWrite(s: Socket, t: Tid, p: Pkg, n: nat): Socket
  {
    At(s.(trail := Written(s.trail, p, 0, n)), t, if n == p.size then UnlockDone else SetDw(p, n))
  }

  // ---- The socket thread ----

  function ServerStep(s: Socket, a: Act): Socket
  {
    match s.server
    case Poll => PollStep(s, a)
    case DecSending => s.(control := Uncounted(s.control), server := Poll)
    case AskDw(why) => if s.lists.dw.Some? then Answer(s, why, false) else s.(server := AskSending(why))
    case AskSending(why) => Answer(s, why, s.control.sending == 0)
    case SetClosing(halfRead) => s.(status := s.status.(closing := true), server := if halfRead then Poll else CloseRead)
    case CloseRead => s.(status := Report(s.status, CloseEvent).(kind := HalfcloseRead), server := Poll)
    case SendHigh => SendHighStep(s, a)
    case SendLow => SendLowStep(s, a)
    case Drained =>
      if s.status.closing then s.(server := FreeLists(false))
      else s.(lists := s.lists.(armed := false), server := Unlock)
    case CloseWrite => CloseWriteStep(s)
    case FreeLists(raise) => FreeStep(s, raise)
    case Shut(raise) => ShutStep(s, raise)
    case Unlock => s.(lock := Free, server := Poll)
  }

  function Uncounted(c: Control): Control { c.(sending := if c.sending > 0 then c.sending - 1 else 0) }

  function Report(st: Status, e: Event): Status { st.(log := st.log + [e]) }

  /** nomore_sending_data has been answered; a socket that may not be written any more has nothing to
      send. */
  function Answer(s: Socket, why: Why, nothing: bool): Socket
  {
    var nomore := nothing || s.status.kind == HalfcloseWrite;
    match why
    case ToClose(halfRead) => s.(server := if nomore then FreeLists(!halfRead) else SetClosing(halfRead))
    case AfterEof => s.(server := if nomore then FreeLists(false) else Poll)
  }

  /** nomore_sending_data starts with the lists, which only the socket thread changes. */
  function Ask(s: Socket, why: Why): Socket
  {
    if s.lists.high == [] && s.lists.low == [] then s.(server := AskDw(why)) else Answer(s, why, false)
  }

  function PollStep(s: Socket, a: Act): Socket
  {
    match a
    case Command => if s.control.pipe == [] then s else CommandStep(s.(control := Took(s.control)), s.control.pipe[0])
    case CanWrite =>
      if s.status.kind == Invalid || s.lock != Free || !s.lists.armed then s
      else s.(lists := Taken(s.lists), lock := ByServer, server := SendHigh)
    case Got(n) => if s.status.kind == Invalid then s else if n == 0 then EndOfFile(s) else Forward(s)
    case ReadError => if s.status.kind == Invalid then s else s.(status := Report(s.status, ErrEvent))
    case PollError => if s.status.kind == Invalid then s else s.(status := Report(s.status, ErrEvent))
    case Hangup => if s.status.kind == Invalid then s else s.(server := FreeLists(s.status.kind != HalfcloseRead))
    case _ => s
  }

  function Took(c: Control): Control
    requires c.pipe != []
  {
    c.(pipe := c.pipe[1..])
  }

  /** ctrl_cmd. */
  function CommandStep(s: Socket, c: Cmd): Socket
  {
    match c
    case WakeCmd => if s.status.kind == Invalid then s else s.(lists := s.lists.(armed := true))
    case SendCmd(p) => s.(lists := SendSocket(s.lists, s.status, p), server := DecSending)
    case CloseCmd(shutdown) =>
      if s.status.kind == Invalid then s
      else
        var halfRead := s.status.kind == HalfcloseRead;
        if shutdown then s.(server := FreeLists(!halfRead)) else Ask(s, ToClose(halfRead))
  }

  /** send_socket. */
  function SendSocket(l: Lists, st: Status, p: Pkg): Lists
  {
    if st.kind == Invalid || st.kind == HalfcloseWrite || st.closing then l
    else if l.high == [] && l.low == [] then l.(high := [Buf(p, 0)], wbSize := l.wbSize + p.size, armed := true)
    else if p.lane.High? then l.(high := l.high + [Buf(p, 0)], wbSize := l.wbSize + p.size)
    else l.(low := l.low + [Buf(p, 0)], wbSize := l.wbSize + p.size)
  }

  /** send_buffer: a package that was written directly goes before all others. */
  function Taken(l: Lists): Lists
  {
    match l.dw
    case None => l
    case Some(b) => l.(high := [b] + l.high, wbSize := l.wbSize + Rest(b), dw := None)
  }

  /** send_list_tcp, for the high list. */
  function SendHighStep(s: Socket, a: Act): Socket
  {
    if s.lists.high == [] then s.(server := if s.lists.low == [] then Drained else SendLow)
    else
      var b := s.lists.high[0];
      match a
      case Wrote(n) =>
        if n > Rest(b) then s
        else
          s.(lists := HighSent(s.lists, n), trail := Written(s.trail, b.pkg, b.off, n),
             server := if n == Rest(b) then SendHigh else Unlock)
      case Again => s.(server := Unlock)
      case Fatal => s.(server := CloseWrite)
      case _ => s
  }

  function HighSent(l: Lists, n: nat): Lists
    requires l.high != []
  {
    var b := l.high[0];
    var l' := l.(wbSize := l.wbSize - n);
    if n == Rest(b) then l'.(high := l.high[1..]) else l'.(high := [Buf(b.pkg, b.off + n)] + l.high[1..])
  }

  /** send_list_tcp, for the low list. */
  function SendLowStep(s: Socket, a: Act): Socket
  {
    if s.lists.low == [] then s.(server := Drained)
    else
      var b := s.lists.low[0];
      match a
      case Wrote(n) =>
        if n > Rest(b) then s
        else
          s.(lists := LowSent(s.lists, n), trail := Written(s.trail, b.pkg, b.off, n),
             server := if n == Rest(b) then SendLow else Unlock)
      case Again => s.(server := Unlock)
      case Fatal => s.(server := CloseWrite)
      case _ => s
  }

  /** A package of which a part was written is raised to the high list, which is empty. */
  function LowSent(l: Lists, n: nat): Lists
    requires l.low != []
  {
    var b := l.low[0];
    var l' := l.(wbSize := l.wbSize - n);
    if n == Rest(b) then l'.(low := l.low[1..])
    else if n == 0 then l'
    else l'.(high := [Buf(b.pkg, b.off + n)], low := l.low[1..])
  }

  /** close_write. */
  function CloseWriteStep(s: Socket): Socket
  {
    if s.status.closing || s.status.kind == HalfcloseRead then s.(server := FreeLists(false))
    else if s.status.kind == HalfcloseWrite then s.(server := Unlock)
    else
      s.(status := Report(s.status, ErrEvent).(kind := HalfcloseWrite), lists := s.lists.(armed := false), server := Unlock)
  }

  predicate Started(b: Option<Buf>) { b.Some? && b.value.off > 0 }

  function Head(bs: seq<Buf>): Option<Buf> { if bs == [] then None else Some(bs[0]) }

  function Tear(w: Trail, b: Option<Buf>): Trail { w.(torn := w.torn || Started(b)) }

  /** force_close frees the lists before it asks for dw_lock. */
  function FreeStep(s: Socket, raise: bool): Socket
  {
    s.(lists := s.lists.(high := [], low := []), trail := Tear(s.trail, Head(s.lists.high)), server := Shut(raise))
  }

  /** The rest of force_close, when dw_lock is obtained or held already. */
  function ShutStep(s: Socket, raise: bool): Socket
  {
    if s.lock.ByWorker? then s
    else
      var st := if raise then Report(s.status, CloseEvent) else s.status;
      s.(status := st.(kind := Invalid), lists := s.lists.(dw := None), lock := Free, server := Poll,
         trail := Tear(s.trail, s.lists.dw))
  }

  /** forward_message_tcp, when read returns zero. */
  function EndOfFile(s: Socket): Socket
  {
    if s.status.closing then Ask(s, AfterEof)
    else if s.status.kind == HalfcloseRead then s
    else if s.status.kind == HalfcloseWrite then s.(server := FreeLists(true))
    else s.(server := CloseRead)
  }

  /** forward_message_tcp, with data. */
  function Forward(s: Socket): Socket
  {
    if s.status.kind == HalfcloseRead then s else s.(status := Report(s.status, DataEvent))
  }

  // ---- Runs ----

  datatype Move = ByThread(t: Tid, a: Act) | BySocketThread(a: Act)

  function Step(s: Socket, m: Move): Socket
  {
    match m
    case ByThread(t, a) => WorkerStep(s, t, a)
    case BySocketThread(a) => ServerStep(s, a)
  }

  ghost function Run(moves: seq<Move>): Socket
  {
    if moves == [] then START else Step(Run(moves[..|moves| - 1]), moves[|moves| - 1])
  }
}
