/**
 * The `epoll_fd_t` container of clibs/epoll.h and clibs/epoll.c: an epoll
 * descriptor with the buffer epoll_wait fills.
 *
 * epoll_create(2), malloc(3) and the kernel's interest set are oracles:
 * their answers are parameters and the calls are recorded by `Kernel.Os`.
 */
module Epoll {
  import opened Wrappers
  import opened Kernel
  import Util

  /** The capacity epoll_fd_create uses when it is given 0. */
  const EPOLL_DEFAULT_SIZE: nat := 1024

  const INT32_MIN: int := -0x8000_0000
  const INT32_MAX: int := 0x7fff_ffff

  /** The capacity epoll_fd_create asks for: the one given, or the default for 0. */
  function Capacity(size: nat): (c: nat)
    ensures c > 0
    ensures size > 0 ==> c == size
    ensures size == 0 ==> c == EPOLL_DEFAULT_SIZE
  {
    if size == 0 then EPOLL_DEFAULT_SIZE else size
  }

  /** `ev.events = event`: the `int` argument converted to the 32-bit unsigned mask. */
  function EventMask(event: int): (m: u32)
    ensures 0 <= event < 0x1_0000_0000 ==> m == event
    ensures (m - event) % 0x1_0000_0000 == 0
  {
    event % 0x1_0000_0000
  }

  /** The `int` a mask reads as: two's complement. */
  function Signed(m: u32): (v: int)
    ensures INT32_MIN <= v <= INT32_MAX
  {
    if m <= INT32_MAX then m else m - 0x1_0000_0000
  }

  /** No event bit of an `int` argument is lost: the mask reads back as the argument. */
  lemma EventMaskRoundTrip(event: int)
    requires INT32_MIN <= event <= INT32_MAX
    ensures Signed(EventMask(event)) == event
  {
    var m := EventMask(event);
    if event < 0 {
      assert m == event + 0x1_0000_0000;
    }
  }

  /** The `struct epoll_event` epoll_fd_add and epoll_fd_mod fill: the pointer as token when there is one, else the descriptor. */
  function EventFor(fd: int, event: int, ptr: object?): (ev: EpollEvent)
    ensures ev.events == EventMask(event)
    ensures ev.data.PtrToken? <==> ptr != null
    ensures ptr != null ==> ev.data.ptr == ptr
    ensures ptr == null ==> ev.data.fd == fd
  {
    EpollEvent(EventMask(event), if ptr != null then PtrToken(ptr) else FdToken(fd))
  }

  /**
   * The token identifies the registration: two events with the same token
   * come from the same non-null pointer, or both carry no pointer and the
   * same descriptor.
   */
  lemma TokenIdentifies(fd1: int, e1: int, p1: object?, fd2: int, e2: int, p2: object?)
    requires EventFor(fd1, e1, p1).data == EventFor(fd2, e2, p2).data
    ensures p1 == p2
    ensures p1 == null ==> fd1 == fd2
  {
  }

  class EpollFd {
    var epfd: int
    var size: nat
    var events: array?<EpollEvent>

    /** The stored size is the capacity of the events buffer whenever there is one. */
    ghost predicate Valid()
      reads this
    {
      events != null ==> events.Length == size
    }

    /** A zero-initialised `epoll_fd_t`. */
    constructor ()
      ensures epfd == 0 && size == 0 && events == null
      ensures Valid()
    {
      epfd, size, events := 0, 0, null;
    }

    /**
     * epoll_fd_create: `created` is epoll_create's result and `obtained`
     * whether malloc succeeded. A failed epoll_create changes nothing; a
     * failed malloc closes the new descriptor and leaves `size` set and
     * `events` NULL; success stores a fresh buffer of the capacity and the
     * descriptor.
     */
    method Create(os: Os, capacity: nat, created: int, obtained: bool) returns (ret: int)
      modifies this, os`closed
      ensures created < 0 ==>
        ret == -1 && epfd == old(epfd) && size == old(size) && events == old(events) && os.closed == old(os.closed)
      ensures created >= 0 && !obtained ==>
        ret == -1 && epfd == old(epfd) && size == Capacity(capacity) && events == null &&
        os.closed == old(os.closed) + [created]
      ensures created >= 0 && obtained ==>
        ret == 0 && epfd == created && size == Capacity(capacity) && events != null && fresh(events) &&
        os.closed == old(os.closed)
      ensures old(Valid()) || created >= 0 ==> Valid()
    {
      var cap := Capacity(capacity);
      if created < 0 {
        return -1;
      }
      size := cap;
      if !obtained {
        events := null;
        os.Close(created);
        return -1;
      }
      events := new EpollEvent[cap](_ => EpollEvent(0, FdToken(0)));
      epfd := created;
      ret := 0;
    }

    /**
     * epoll_fd_close: with a buffer, frees it, clears `events` and `size`
     * and closes the descriptor; without one it does nothing, so a second
     * close is a no-op.
     */
    method Close(os: Os)
      modifies this, os`closed, os`freed
      ensures old(events) != null ==>
        events == null && size == 0 && epfd == old(epfd) &&
        os.freed == old(os.freed) + [old(events)] && os.closed == old(os.closed) + [old(epfd)]
      ensures old(events) == null ==>
        events == null && size == old(size) && epfd == old(epfd) &&
        os.freed == old(os.freed) && os.closed == old(os.closed)
      ensures Valid()
    {
      if events != null {
        os.Free(events);
        events := null;
        size := 0;
        os.Close(epfd);
      }
    }

    /**
     * epoll_fd_add: set_nonblock first, and no registration when it fails;
     * then EPOLL_CTL_ADD with the event, `result` being epoll_ctl's answer.
     * A registered descriptor is non-blocking.
     */
    method Add(os: Os, fd: int, event: int, ptr: object?, accepted: bool, result: int) returns (ret: int)
      modifies os`flags, os`setfl, os`ctl
      ensures os.flags == Util.AfterNonblock(old(os.flags), fd, accepted)
      ensures os.setfl == old(os.setfl) +
        (if Util.WritesFlags(old(os.flags), fd) then [(fd, Util.WithNonblock(old(os.flags)[fd]))] else [])
      ensures !Util.NonblockOk(old(os.flags), fd, accepted) ==> ret == -1 && os.ctl == old(os.ctl)
      ensures Util.NonblockOk(old(os.flags), fd, accepted) ==>
        os.ctl == old(os.ctl) + [CtlCall(epfd, CtlAdd, fd, Some(EventFor(fd, event, ptr)))] &&
        ret == (if result < 0 then -1 else 0)
      ensures ret == 0 ==> fd in os.flags && os.flags[fd] & Util.O_NONBLOCK != 0
    {
      var nb := Util.SetNonblock(os, fd, accepted);
      if nb < 0 {
        return -1;
      }
      var ev := EventFor(fd, event, ptr);
      var r := os.EpollCtl(epfd, CtlAdd, fd, Some(ev), result);
      ret := if r < 0 then -1 else 0;
    }

    /** epoll_fd_mod: EPOLL_CTL_MOD with the event; the status flags are not touched. */
    method Mod(os: Os, fd: int, event: int, ptr: object?, result: int) returns (ret: int)
      modifies os`ctl
      ensures os.ctl == old(os.ctl) + [CtlCall(epfd, CtlMod, fd, Some(EventFor(fd, event, ptr)))]
      ensures ret == (if result < 0 then -1 else 0)
    {
      var ev := EventFor(fd, event, ptr);
      var r := os.EpollCtl(epfd, CtlMod, fd, Some(ev), result);
      ret := if r < 0 then -1 else 0;
    }

    /** epoll_fd_del: EPOLL_CTL_DEL with no event. */
    method Del(os: Os, fd: int, result: int) returns (ret: int)
      modifies os`ctl
      ensures os.ctl == old(os.ctl) + [CtlCall(epfd, CtlDel, fd, None)]
      ensures ret == (if result < 0 then -1 else 0)
    {
      var r := os.EpollCtl(epfd, CtlDel, fd, None, result);
      ret := if r < 0 then -1 else 0;
    }

    /**
     * epoll_fd_wait: epoll_wait into the events buffer with `size` as
     * maxevents; `ready` is what the kernel has pending and `fails` an error.
     * At most `size` events arrive, at the front of the buffer. After a
     * create whose malloc failed the buffer is NULL while `size` is set:
     * then the call returns 0 when nothing is pending and faults otherwise.
     */
    method Wait(os: Os, timeout: int, ready: seq<EpollEvent>, fails: bool) returns (n: int)
      requires Valid()
      modifies events
      ensures fails || size == 0 ==> n == -1
      ensures events == null && !fails && size > 0 ==> n == (if |ready| == 0 then 0 else -1)
      ensures n == -1 ==> events == null || events[..] == old(events[..])
      ensures events != null && !fails && size > 0 ==>
        n == (if |ready| < size then |ready| else size) &&
        events[..n] == ready[..n] && events[n..] == old(events[n..])
      ensures n == -1 || 0 <= n <= size
    {
      n := os.EpollWait(epfd, events, size, timeout, ready, fails);
    }

    /** epoll_events: the very buffer epoll_fd_wait fills. */
    function Events(): (r: array?<EpollEvent>)
      reads this
      ensures r == events
    {
      events
    }
  }
}
