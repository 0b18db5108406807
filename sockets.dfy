/** The socket wrapper's timeout and blocking state, the module default
    timeout, and the progress bookkeeping of the SendFile operation. */
module Sockets {
  import opened Common

  /** A timeout: None, or a number of seconds. */
  type Timeout = Option<real>

  // ---------------------------------------------------------------------
  // The module default (`_TIMEOUT`).

  /** The module-level `_TIMEOUT` that new sockets copy. */
  class Defaults {
    var timeout: Timeout

    constructor()
      ensures timeout == None
    {
      timeout := None;
    }

    /** As written at sockets.py:42-45: the assignment binds a local name, so
        the module default is left as it was. */
    method SetDefaultTimeoutAsWritten(t: Timeout)
      ensures unchanged(this)
    {
      var local := t;
    }

    /** Corrected: the assignment reaches the module default. */
    method SetDefaultTimeout(t: Timeout)
      modifies this
      ensures timeout == t
    {
      timeout := t;
    }
  }

  // ---------------------------------------------------------------------
  // Socket

  class Socket {
    var timeout: Timeout
    var reactorAdded: bool

    /** A new socket takes the module default timeout and is not yet known
        to the reactor. */
    constructor(defaults: Defaults)
      ensures timeout == defaults.timeout && !reactorAdded
    {
      timeout := defaults.timeout;
      reactorAdded := false;
    }

    method SetTimeout(t: Timeout)
      modifies this
      ensures timeout == t && reactorAdded == old(reactorAdded)
    {
      timeout := t;
    }

    method GetTimeout() returns (t: Timeout)
      ensures t == timeout
    {
      t := timeout;
    }

    /** The wrapper is always non-blocking: asking for blocking mode raises,
        asking for non-blocking mode does nothing. */
    method SetBlocking(flag: bool) returns (r: Option<Fault>)
      ensures r.Some? <==> flag
      ensures r.Some? ==> r.value == RuntimeError("You can't.")
    {
      if flag {
        return Some(RuntimeError("You can't."));
      }
      return None;
    }
  }

  /** What `settimeout` stores, `gettimeout` gives back, and nothing else
      about the socket changes. */
  method TimeoutRoundTrip(s: Socket, t: Timeout) returns (got: Timeout)
    modifies s
    ensures got == t && s.reactorAdded == old(s.reactorAdded)
  {
    s.SetTimeout(t);
    got := s.GetTimeout();
  }

  /** With setdefaulttimeout as written, a socket made afterwards still gets
      the old default rather than the value just set. */
  method DefaultIgnoredAsWritten(d: Defaults, t: Timeout) returns (s: Socket)
    requires d.timeout != t
    ensures s.timeout == old(d.timeout) && s.timeout != t
  {
    d.SetDefaultTimeoutAsWritten(t);
    s := new Socket(d);
  }

  /** With the corrected setdefaulttimeout, a socket made afterwards gets the
      value just set. */
  method DefaultApplied(d: Defaults, t: Timeout) returns (s: Socket)
    modifies d
    ensures s.timeout == t && !s.reactorAdded
  {
    d.SetDefaultTimeout(t);
    s := new Socket(d);
  }

  // ---------------------------------------------------------------------
  // SendFile

  /** Python truthiness of `self.length`: present and non-zero. */
  predicate HasLength(length: Option<int>) {
    length.Some? && length.value != 0
  }

  function Min(a: int, b: int): int {
    if a <= b then a else b
  }

  /** The `(file offset, byte count)` one transfer asks for; `run` and
      `iocp` compute it alike. */
  function Window(offset: int, length: Option<int>, blocksize: nat, sent: int): (int, int) {
    if HasLength(length) then
      (offset + sent, if blocksize != 0 then Min(length.value - sent, blocksize) else length.value - sent)
    else (offset + sent, blocksize)
  }

  /** What one call of `run` reports back to the scheduler. */
  datatype RunResult =
    | Done             // `return self`: the operation is complete
    | Again            // `return None`: run me again when writable
    | AssertionFailed  // `assert self.sent <= self.length` failed

  /** Whether `run` returns before sending anything, and with what: it fails
      exactly when a non-zero length is already exceeded, and completes at
      once exactly when the length is reached (a length of 0 with nothing
      sent included). */
  function Settled(length: Option<int>, sent: int): (r: Option<RunResult>)
    ensures r == Some(AssertionFailed) <==> HasLength(length) && sent > length.value
    ensures r == Some(Done) <==> length == Some(sent)
    ensures r.Some? ==> r.value != Again
  {
    if HasLength(length) && !(sent <= length.value) then Some(AssertionFailed)
    else if length == Some(sent) then Some(Done)
    else None
  }

  /** The outcome of `run` once the transfer reported `n` bytes: complete
      when the length is reached, or, without a length, when nothing was sent. */
  function AfterSend(length: Option<int>, sent: int, n: nat): RunResult {
    if HasLength(length) then (if sent + n == length.value then Done else Again)
    else (if n == 0 then Done else Again)
  }

  class SendFile {
    const offset: int
    const position: int
    const length: Option<int>
    const blocksize: nat
    var sent: int

    /** `offset or file_handle.tell()`: no offset, or offset 0, means the
        file's current position. */
    constructor(offset: Option<int>, tell: int, length: Option<int>, blocksize: nat)
      ensures this.offset == position
      ensures this.offset == if offset.None? || offset.value == 0 then tell else offset.value
      ensures this.length == length && this.blocksize == blocksize && sent == 0
    {
      var start := if offset.None? || offset.value == 0 then tell else offset.value;
      this.offset := start;
      position := start;
      this.length := length;
      this.blocksize := blocksize;
      sent := 0;
    }

    function Request(): (int, int)
      reads this
    {
      Window(offset, length, blocksize, sent)
    }

    /** `run`: checks the bound, stops if everything is sent, otherwise asks
        `send` (the OS transfer) for the next window and adds what it moved to `sent`. */
    method Run(send: (int, int) -> nat) returns (r: RunResult)
      modifies this
      ensures Settled(length, old(sent)).Some? ==> r == Settled(length, old(sent)).value && sent == old(sent)
      ensures Settled(length, old(sent)).None? ==>
                var n := send(old(Request()).0, old(Request()).1);
                sent == old(sent) + n && r == AfterSend(length, old(sent), n)
    {
      if HasLength(length) && !(sent <= length.value) {
        return AssertionFailed;
      }
      if length == Some(sent) {
        return Done;
      }
      var req := Request();
      var n := send(req.0, req.1);
      sent := sent + n;
      if HasLength(length) {
        r := if sent == length.value then Done else Again;
      } else {
        r := if n == 0 then Done else Again;
      }
    }

    /** `iocp`: the window the overlapped transfer is started with. */
    method Iocp() returns (req: (int, int))
      ensures req == Window(offset, length, blocksize, sent)
    {
      var at := offset + sent;
      if HasLength(length) {
        if blocksize != 0 {
          req := (at, Min(length.value - sent, blocksize));
        } else {
          req := (at, length.value - sent);
        }
      } else {
        req := (at, blocksize);
      }
    }

    /** `iocp_done`: the completed transfer's byte count is added to `sent`. */
    method IocpDone(nbytes: int)
      modifies this
      ensures sent == old(sent) + nbytes
    {
      sent := sent + nbytes;
    }
  }

  // ---------------------------------------------------------------------
  // Properties of one step.

  /** With a length, each transfer starts where the previous one ended and
      stays inside the requested region: it never asks for more than the
      block size (when one is set) nor past `offset + length`. */
  lemma WindowInsideFile(offset: int, length: Option<int>, blocksize: nat, sent: int)
    requires HasLength(length) && 0 <= sent < length.value
    ensures var w := Window(offset, length, blocksize, sent);
            && w.0 == offset + sent
            && 0 < w.1 && w.0 + w.1 <= offset + length.value
            && (blocksize != 0 ==> w.1 <= blocksize)
            && (blocksize == 0 ==> w.0 + w.1 == offset + length.value)
  {
  }

  /** With a positive length, `sent` never overshoots it, and every call that
      moves at least one byte brings the transfer strictly closer to done:
      so at most `length` such calls finish it. */
  lemma StepProgress(offset: int, len: int, blocksize: nat, sent: int, n: nat)
    requires 0 < len && 0 <= sent < len
    requires n <= Window(offset, Some(len), blocksize, sent).1
    ensures Settled(Some(len), sent).None?
    ensures 0 <= sent + n <= len
    ensures AfterSend(Some(len), sent, n) == Done <==> sent + n == len
    ensures 0 < n ==> len - (sent + n) < len - sent
  {
  }

  /** Without a length the transfer completes on the first call that moves
      nothing; a block size of 0 asks for nothing, so it completes at once. */
  lemma UnboundedEnds(offset: int, blocksize: nat, sent: int, n: nat)
    requires n <= Window(offset, None, blocksize, sent).1
    ensures AfterSend(None, sent, n) == Done <==> n == 0
    ensures blocksize == 0 ==> AfterSend(None, sent, n) == Done
  {
  }

  // ---------------------------------------------------------------------
  // The whole transfer.

  /** What the OS transfer moves when it is asked for `count` bytes with
      `left` bytes of the file still unsent: all of them that the file holds. */
  function Moves(count: int, left: nat): nat {
    if count <= 0 then 0 else Min(count, left)
  }

  /** The number of bytes sent once `run` has been repeated until it
      completes, over a file holding `avail` bytes from the offset and the
      transfer of `Moves`; None when `run` fails its bound check, or gets
      `Again` from a call that moved nothing, which repeats forever. */
  function Drive(avail: nat, length: Option<int>, blocksize: nat, sent: nat): Option<nat>
    requires sent <= avail
    decreases avail - sent
  {
    match Settled(length, sent)
    case Some(r) => if r == Done then Some(sent) else None
    case None =>
      var n := Moves(Window(0, length, blocksize, sent).1, avail - sent);
      if AfterSend(length, sent, n) == Done then Some(sent + n)
      else if n == 0 then None
      else Drive(avail, length, blocksize, sent + n)
  }

  /** Repeating `run` sends exactly the length when the file holds it, and
      never completes when it does not; a negative length fails at once.
      Without a length it sends the whole file, unless the block size is 0,
      which sends nothing. */
  lemma {:induction false} DriveEnds(avail: nat, length: Option<int>, blocksize: nat, sent: nat)
    requires sent <= avail
    requires length.Some? && length.value >= 0 ==> sent <= length.value
    requires length.Some? && length.value < 0 ==> sent == 0
    requires length.None? && blocksize == 0 ==> sent == 0
    ensures Drive(avail, length, blocksize, sent) ==
              if length.Some? && length.value < 0 then None
              else if length.Some? && length.value > avail then None
              else if length.Some? then Some(length.value)
              else if blocksize == 0 then Some(0)
              else Some(avail)
    decreases avail - sent
  {
    if Settled(length, sent).None? {
      var n := Moves(Window(0, length, blocksize, sent).1, avail - sent);
      if AfterSend(length, sent, n) != Done && n != 0 {
        DriveEnds(avail, length, blocksize, sent + n);
      }
    }
  }
}
