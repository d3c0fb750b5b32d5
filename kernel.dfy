/**
 * The operating system and the C library as the wrappers in clibs/ see them.
 *
 * Nothing here is part of the repository: it is the environment the wrappers
 * call into. Every system call is an oracle whose outcome is a parameter; the
 * object only records which calls were made, so that the contracts of the
 * wrappers can say which descriptors were closed, which blocks were freed,
 * which flag words were written and what was passed to epoll_ctl(2).
 */
module Kernel {
  import opened Wrappers

  /** The `epoll_data` union: the caller's pointer, or the descriptor. */
  datatype Token = PtrToken(ptr: object) | FdToken(fd: int)

  /** A `uint32_t`. */
  type u32 = x: int | 0 <= x < 0x1_0000_0000

  /** `struct epoll_event`: the 32-bit readiness mask and the token. */
  datatype EpollEvent = EpollEvent(events: u32, data: Token)

  /** The three epoll_ctl(2) operations, EPOLL_CTL_ADD (1), _DEL (2) and _MOD (3). */
  datatype CtlOp = CtlAdd | CtlDel | CtlMod

  /** One epoll_ctl(2) call: the epoll descriptor, the operation, the target and the event passed (None for NULL). */
  datatype CtlCall = CtlCall(epfd: int, op: CtlOp, fd: int, event: Option<EpollEvent>)

  class Os {
    /** File status flags (F_GETFL) of every descriptor fcntl(2) accepts. */
    var flags: map<int, bv32>
    /** Every F_SETFL request, in order: descriptor and flag word. */
    var setfl: seq<(int, bv32)>
    /** Every close(2), in order. */
    var closed: seq<int>
    /** Every free(3), in order. */
    var freed: seq<object>
    /** Every epoll_ctl(2), in order. */
    var ctl: seq<CtlCall>

    constructor (flags: map<int, bv32>)
      ensures this.flags == flags
      ensures setfl == [] && closed == [] && freed == [] && ctl == []
    {
      this.flags := flags;
      setfl, closed, freed, ctl := [], [], [], [];
    }

    /** close(2). */
    method Close(fd: int)
      modifies this`closed
      ensures closed == old(closed) + [fd]
    {
      closed := closed + [fd];
    }

    /** free(3). */
    method Free(p: object)
      modifies this`freed
      ensures freed == old(freed) + [p]
    {
      freed := freed + [p];
    }

    /** fcntl(fd, F_GETFL): fails (returns -1) for a descriptor the table does not know. */
    method GetFlags(fd: int) returns (ok: bool, val: bv32)
      ensures ok == (fd in flags)
      ensures ok ==> val == flags[fd]
    {
      ok := fd in flags;
      val := if ok then flags[fd] else 0;
    }

    /** fcntl(fd, F_SETFL, val): `accepted` is the kernel's answer; a refused request changes nothing. */
    method SetFlags(fd: int, val: bv32, accepted: bool) returns (r: int)
      modifies this`flags, this`setfl
      ensures setfl == old(setfl) + [(fd, val)]
      ensures accepted && fd in old(flags) ==> r == 0 && flags == old(flags)[fd := val]
      ensures !(accepted && fd in old(flags)) ==> r == -1 && flags == old(flags)
    {
      setfl := setfl + [(fd, val)];
      if accepted && fd in flags {
        flags := flags[fd := val];
        r := 0;
      } else {
        r := -1;
      }
    }

    /** epoll_ctl(2): the kernel's interest set is not modelled; `result` is its answer. */
    method EpollCtl(epfd: int, op: CtlOp, fd: int, event: Option<EpollEvent>, result: int) returns (r: int)
      modifies this`ctl
      ensures ctl == old(ctl) + [CtlCall(epfd, op, fd, event)]
      ensures r == result
    {
      ctl := ctl + [CtlCall(epfd, op, fd, event)];
      r := result;
    }

    /**
     * epoll_wait(2): `ready` is what the kernel has pending and `fails` an
     * error such as EBADF or EINTR. A non-positive `maxevents` is refused
     * (EINVAL). A null buffer passes the kernel's up-front address check:
     * with nothing pending the call returns 0, and copying out the first
     * event faults (EFAULT). Otherwise at most `maxevents` events are copied
     * to the front of the buffer, in the kernel's order.
     */
    method EpollWait(epfd: int, buf: array?<EpollEvent>, maxevents: int, timeout: int,
                     ready: seq<EpollEvent>, fails: bool) returns (n: int)
      requires buf != null ==> maxevents <= buf.Length
      modifies buf
      ensures fails || maxevents <= 0 ==> n == -1
      ensures buf == null && !fails && maxevents > 0 ==> n == (if |ready| == 0 then 0 else -1)
      ensures n == -1 ==> buf == null || buf[..] == old(buf[..])
      ensures buf != null && !fails && maxevents > 0 ==>
        n == (if |ready| < maxevents then |ready| else maxevents) &&
        buf[..n] == ready[..n] && buf[n..] == old(buf[n..])
    {
      if fails || maxevents <= 0 {
        return -1;
      }
      if buf == null {
        return if |ready| == 0 then 0 else -1;
      }
      n := if |ready| < maxevents then |ready| else maxevents;
      forall i | 0 <= i < n {
        buf[i] := ready[i];
      }
    }
  }
}
