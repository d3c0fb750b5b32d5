/**
 * clibs/util.h and clibs/util.c: the non-blocking read/write wrappers with
 * their retry-on-interrupt loops, set_nonblock, and the safe_close and
 * safe_free macros.
 */
module Util {
  import opened Kernel

  const EINTR: int := 4
  const EAGAIN: int := 11
  /** Linux defines EWOULDBLOCK as EAGAIN. */
  const EWOULDBLOCK: int := 11
  const O_NONBLOCK: bv32 := 0x800

  /** What one read(2) or write(2) returned: a byte count, or -1 with errno set. */
  datatype SysResult = Transferred(n: nat) | Failed(errno: int)

  predicate Interrupted(o: SysResult) {
    o.Failed? && o.errno == EINTR
  }

  predicate WouldBlock(o: SysResult) {
    o.Failed? && (o.errno == EAGAIN || o.errno == EWOULDBLOCK)
  }

  /**
   * The kernel's successive answers to one request eventually stop being
   * EINTR: a retry loop over them ends.
   */
  predicate Settles(outcomes: seq<SysResult>) {
    |outcomes| > 0 && (!Interrupted(outcomes[0]) || Settles(outcomes[1..]))
  }

  /** The kernel never reports more bytes than were asked for. */
  predicate Bounded(outcomes: seq<SysResult>, size: nat) {
    forall i | 0 <= i < |outcomes| :: outcomes[i].Transferred? ==> outcomes[i].n <= size
  }

  /** The position of the first answer that is not EINTR. */
  function FirstSettled(outcomes: seq<SysResult>): (k: nat)
    requires Settles(outcomes)
    ensures k < |outcomes| && !Interrupted(outcomes[k])
    ensures forall j | 0 <= j < k :: Interrupted(outcomes[j])
  {
    if !Interrupted(outcomes[0]) then 0 else 1 + FirstSettled(outcomes[1..])
  }

  /** Whether the wrapper gets as far as the system call: a valid descriptor, a buffer, a non-zero size. */
  predicate Issues(fd: int, hasData: bool, size: nat) {
    fd >= 0 && hasData && size > 0
  }

  /** How a settled answer is reported: the count, `onAgain` for EAGAIN/EWOULDBLOCK, -1 otherwise. */
  function Classify(o: SysResult, onAgain: int): int {
    match o
    case Transferred(n) => n
    case Failed(e) => if e == EAGAIN || e == EWOULDBLOCK then onAgain else -1
  }

  /** What Read reports. */
  function ReadResult(fd: int, hasData: bool, size: nat, outcomes: seq<SysResult>): int
    requires Issues(fd, hasData, size) ==> Settles(outcomes)
  {
    if fd < 0 || !hasData then -1
    else if size == 0 then 0
    else Classify(outcomes[FirstSettled(outcomes)], -EAGAIN)
  }

  /** What Write reports. */
  function WriteResult(fd: int, hasData: bool, len: nat, outcomes: seq<SysResult>): int
    requires Issues(fd, hasData, len) ==> Settles(outcomes)
  {
    if fd < 0 || !hasData then -1
    else if len == 0 then 0
    else Classify(outcomes[FirstSettled(outcomes)], 0)
  }

  /** How many system calls Read or Write issue: none on the early returns, one per EINTR plus the settling one otherwise. */
  function SyscallCount(fd: int, hasData: bool, size: nat, outcomes: seq<SysResult>): nat
    requires Issues(fd, hasData, size) ==> Settles(outcomes)
  {
    if Issues(fd, hasData, size) then FirstSettled(outcomes) + 1 else 0
  }

  /**
   * Read(fd, data, size): `hasData` is `data != NULL` and `outcomes` the
   * answers read(2) gives, one per call. Returns the value and the number of
   * read(2) calls made.
   */
  method Read(fd: int, hasData: bool, size: nat, outcomes: seq<SysResult>) returns (ret: int, calls: nat)
    requires Issues(fd, hasData, size) ==> Settles(outcomes)
    ensures ret == ReadResult(fd, hasData, size, outcomes)
    ensures calls == SyscallCount(fd, hasData, size, outcomes)
  {
    if fd < 0 || !hasData {
      return -1, 0;
    }
    if size == 0 {
      return 0, 0;
    }
    calls := 0;
    while true
      invariant calls <= FirstSettled(outcomes)
      decreases |outcomes| - calls
    {
      var o := outcomes[calls];
      calls := calls + 1;
      if o.Failed? {
        if o.errno == EINTR {
          continue;
        }
        if o.errno == EAGAIN || o.errno == EWOULDBLOCK {
          return -EAGAIN, calls;
        }
        return -1, calls;
      }
      return o.n, calls;
    }
  }

  /** Write(fd, data, len), the mirror of Read except for EAGAIN. */
  method Write(fd: int, hasData: bool, len: nat, outcomes: seq<SysResult>) returns (ret: int, calls: nat)
    requires Issues(fd, hasData, len) ==> Settles(outcomes)
    ensures ret == WriteResult(fd, hasData, len, outcomes)
    ensures calls == SyscallCount(fd, hasData, len, outcomes)
  {
    if fd < 0 || !hasData {
      return -1, 0;
    }
    if len == 0 {
      return 0, 0;
    }
    calls := 0;
    while true
      invariant calls <= FirstSettled(outcomes)
      decreases |outcomes| - calls
    {
      var o := outcomes[calls];
      calls := calls + 1;
      if o.Failed? {
        if o.errno == EINTR {
          continue;
        }
        if o.errno == EAGAIN || o.errno == EWOULDBLOCK {
          return 0, calls;
        }
        return -1, calls;
      }
      return o.n, calls;
    }
  }

  /** An interrupted call is retried: a leading EINTR costs one more call and changes nothing else. */
  lemma {:induction false} InterruptIsRetried(fd: int, hasData: bool, size: nat, outcomes: seq<SysResult>)
    requires Issues(fd, hasData, size) && Settles(outcomes)
    ensures Settles([Failed(EINTR)] + outcomes)
    ensures ReadResult(fd, hasData, size, [Failed(EINTR)] + outcomes) == ReadResult(fd, hasData, size, outcomes)
    ensures WriteResult(fd, hasData, size, [Failed(EINTR)] + outcomes) == WriteResult(fd, hasData, size, outcomes)
    ensures SyscallCount(fd, hasData, size, [Failed(EINTR)] + outcomes) == SyscallCount(fd, hasData, size, outcomes) + 1
  {
    var o' := [Failed(EINTR)] + outcomes;
    assert o'[1..] == outcomes;
    assert FirstSettled(o') == FirstSettled(outcomes) + 1;
  }

  /** Read never reports EINTR; it reports -1, -EAGAIN or a count no larger than the request. */
  lemma ReadResultRange(fd: int, hasData: bool, size: nat, outcomes: seq<SysResult>)
    requires Issues(fd, hasData, size) ==> Settles(outcomes)
    requires Bounded(outcomes, size)
    ensures var r := ReadResult(fd, hasData, size, outcomes);
      r != -EINTR && (r == -1 || r == -EAGAIN || 0 <= r <= size)
    ensures var r := ReadResult(fd, hasData, size, outcomes);
      r == -EAGAIN <==> Issues(fd, hasData, size) && WouldBlock(outcomes[FirstSettled(outcomes)])
  {
  }

  /** Write never reports an error other than -1; a full buffer reads as zero bytes written. */
  lemma WriteResultRange(fd: int, hasData: bool, len: nat, outcomes: seq<SysResult>)
    requires Issues(fd, hasData, len) ==> Settles(outcomes)
    requires Bounded(outcomes, len)
    ensures var r := WriteResult(fd, hasData, len, outcomes);
      r == -1 || 0 <= r <= len
    ensures Issues(fd, hasData, len) && WouldBlock(outcomes[FirstSettled(outcomes)]) ==>
      WriteResult(fd, hasData, len, outcomes) == 0
  {
  }

  /** Read and Write classify every answer alike except EAGAIN, which Read reports as -EAGAIN and Write as 0. */
  lemma ReadWriteAgree(fd: int, hasData: bool, size: nat, outcomes: seq<SysResult>)
    requires Issues(fd, hasData, size) ==> Settles(outcomes)
    ensures !(Issues(fd, hasData, size) && WouldBlock(outcomes[FirstSettled(outcomes)])) ==>
      ReadResult(fd, hasData, size, outcomes) == WriteResult(fd, hasData, size, outcomes)
    ensures Issues(fd, hasData, size) && WouldBlock(outcomes[FirstSettled(outcomes)]) ==>
      ReadResult(fd, hasData, size, outcomes) == -EAGAIN && WriteResult(fd, hasData, size, outcomes) == 0
  {
  }

  /** The value safe_close leaves in its variable. */
  function SafeClosed(fd: int): int {
    if fd > 0 then -1 else fd
  }

  /** The close(2) calls safe_close makes. */
  function CloseCalls(fd: int): seq<int> {
    if fd > 0 then [fd] else []
  }

  /**
   * safe_close(fd): closes and resets the variable to -1 only when it is
   * positive; -1 and 0 are left alone.
   */
  method SafeClose(os: Os, fd: int) returns (fd': int)
    modifies os`closed
    ensures fd' == SafeClosed(fd)
    ensures os.closed == old(os.closed) + CloseCalls(fd)
  {
    fd' := fd;
    if fd' > 0 {
      os.Close(fd');
      fd' := -1;
    }
  }

  /** After safe_close the variable is never positive: a second safe_close closes nothing and changes nothing. */
  lemma SafeCloseIdempotent(fd: int)
    ensures SafeClosed(fd) <= 0
    ensures SafeClosed(SafeClosed(fd)) == SafeClosed(fd)
    ensures CloseCalls(SafeClosed(fd)) == []
    ensures fd <= 0 ==> SafeClosed(fd) == fd && CloseCalls(fd) == []
  {
  }

  /** safe_free(p): frees a non-null block and leaves the variable NULL. */
  method SafeFree(os: Os, p: object?) returns (p': object?)
    modifies os`freed
    ensures p' == null
    ensures os.freed == old(os.freed) + (if p != null then [p] else [])
  {
    p' := p;
    if p' != null {
      os.Free(p');
      p' := null;
    }
  }

  /** The flag word set_nonblock writes. */
  function WithNonblock(flags: bv32): (r: bv32)
    ensures r & O_NONBLOCK == O_NONBLOCK
    ensures r & !O_NONBLOCK == flags & !O_NONBLOCK
  {
    flags | O_NONBLOCK
  }

  /** A flag word that already has O_NONBLOCK is its own WithNonblock. */
  lemma WithNonblockFixed(flags: bv32)
    requires flags & O_NONBLOCK != 0
    ensures WithNonblock(flags) == flags
  {
  }

  /** Whether set_nonblock issues F_SETFL: the descriptor is known and not yet non-blocking. */
  predicate WritesFlags(flags: map<int, bv32>, fd: int) {
    fd in flags && flags[fd] & O_NONBLOCK == 0
  }

  /** Whether set_nonblock returns 0: the descriptor is known and, if F_SETFL is needed, the kernel accepts it. */
  predicate NonblockOk(flags: map<int, bv32>, fd: int, accepted: bool) {
    fd in flags && (!WritesFlags(flags, fd) || accepted)
  }

  /** The status flags after set_nonblock. */
  function AfterNonblock(flags: map<int, bv32>, fd: int, accepted: bool): map<int, bv32> {
    if WritesFlags(flags, fd) && accepted then flags[fd := WithNonblock(flags[fd])] else flags
  }

  /**
   * set_nonblock(fd): reads the status flags, returns 0 at once if
   * O_NONBLOCK is already set, otherwise writes them back with O_NONBLOCK
   * added. `accepted` is the kernel's answer to F_SETFL.
   */
  method SetNonblock(os: Os, fd: int, accepted: bool) returns (r: int)
    modifies os`flags, os`setfl
    ensures os.flags == AfterNonblock(old(os.flags), fd, accepted)
    ensures os.setfl == old(os.setfl) +
      (if WritesFlags(old(os.flags), fd) then [(fd, WithNonblock(old(os.flags)[fd]))] else [])
    ensures r == 0 <==> NonblockOk(old(os.flags), fd, accepted)
    ensures r == 0 || r == -1
    ensures r == 0 ==> fd in os.flags && os.flags[fd] & O_NONBLOCK != 0
  {
    var ok, val := os.GetFlags(fd);
    if !ok {
      return -1;
    }
    if val & O_NONBLOCK != 0 {
      return 0;
    }
    val := WithNonblock(val);
    var s := os.SetFlags(fd, val, accepted);
    if s == -1 {
      return -1;
    }
    return 0;
  }

  /** set_nonblock is idempotent: once it succeeded, a second call writes nothing and keeps the flags. */
  lemma NonblockIdempotent(flags: map<int, bv32>, fd: int, accepted: bool, again: bool)
    requires NonblockOk(flags, fd, accepted)
    ensures !WritesFlags(AfterNonblock(flags, fd, accepted), fd)
    ensures AfterNonblock(AfterNonblock(flags, fd, accepted), fd, again) == AfterNonblock(flags, fd, accepted)
  {
  }
}
