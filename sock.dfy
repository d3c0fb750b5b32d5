/**
 * The `sock_t` handle of clibs/sock.h and clibs/sock.c: its life cycle
 * (sock_new, sock_init, sock_term, sock_destroy), its I/O (sock_read,
 * sock_write, sock_accept) and its accessors.
 *
 * The socket creators (tcp_server_create and the others), Accept and
 * inet_ntop are not part of this model: each call is recorded as a
 * `CreateCall` or an `AcceptCall` and its result is a parameter.
 */
module Sockets {
  import opened Wrappers
  import opened CString
  import opened SockTypes
  import opened SockParse
  import opened Kernel
  import Util

  /** The backlog sock_init passes to tcp_server_create. */
  const BACKLOG: int := 1024

  /** The fields of a `sock_t`. `isConnected` is the `int8_t is_connected`. */
  datatype SockView = SockView(fd: int, domain: int, sockType: int, isConnected: int, addr: Address)

  /** The all-zero handle that MALLOC (calloc) and sock_term leave. */
  const ZERO := SockView(0, 0, SOCK_UNKONW_TYPE, 0, Zeroed)

  /** The creator sock_init calls for each concrete type, with its arguments. */
  datatype CreateCall =
    | TcpServerCreate(ip: string, port: u16, backlog: int)
    | TcpClientCreate(ip: string, port: u16)
    | UdpServerCreate(ip: string, port: u16)
    | UdpClientCreate(ip: string, port: u16)
    | UnixUdpServerCreate(path: string)
    | UnixUdpClientCreate(path: string)

  /**
   * The switch of sock_init: the creator for a type code, reading the
   * member of the address union that code uses; None for the `default`
   * branch, which the source treats as unreachable.
   */
  function CreateCallFor(code: int, addr: Address): (c: Option<CreateCall>)
    ensures c.Some? ==> IsConcrete(code)
    ensures c.Some? && code < SOCK_UNIX ==> addr.Net?
    ensures c.Some? && code > SOCK_UNIX ==> addr.UnixPath?
  {
    if code == SOCK_TCP_SERVER && addr.Net? then Some(TcpServerCreate(addr.ip, addr.port, BACKLOG))
    else if code == SOCK_TCP_CLIENT && addr.Net? then Some(TcpClientCreate(addr.ip, addr.port))
    else if code == SOCK_UDP_SERVER && addr.Net? then Some(UdpServerCreate(addr.ip, addr.port))
    else if code == SOCK_UDP_CLIENT && addr.Net? then Some(UdpClientCreate(addr.ip, addr.port))
    else if code == SOCK_UNIX_SERVER && addr.UnixPath? then Some(UnixUdpServerCreate(addr.path))
    else if code == SOCK_UNIX_CLIENT && addr.UnixPath? then Some(UnixUdpClientCreate(addr.path))
    else None
  }

  /**
   * What _parse_socket_info leaves in the handle: nothing on a bad marker or
   * keyword; only the type code on a bad address; otherwise the type code,
   * the address and, for tcp and udp, the domain.
   */
  function StoreParse(v: SockView, r: Result<Endpoint, ParseError>): SockView {
    match r
    case Failure(BadAddress(code, _)) => v.(sockType := code)
    case Failure(_) => v
    case Success(ep) => v.(sockType := TypeCode(ep.transport, ep.role), domain := ep.family.GetOr(v.domain), addr := ep.addr)
  }

  /** The handle sock_init leaves, its result, and the creator it called. */
  datatype InitOutcome = InitOutcome(view: SockView, ret: int, call: Option<CreateCall>)

  /** sock_init on a handle `v`, `created` being the creator's result. */
  function InitEffect(v: SockView, info: string, created: int): InitOutcome
    requires Defined(info)
  {
    var r := ParseSocketInfo(info);
    var v1 := StoreParse(v.(fd := -1), r);
    if r.Failure? then InitOutcome(v1, -1, None)
    else
      match CreateCallFor(v1.sockType, v1.addr)
      case None => InitOutcome(v1, -1, None)
      case Some(c) => InitOutcome(v1.(fd := created), if created < 0 then -1 else 0, Some(c))
  }

  /**
   * sock_init succeeds exactly when the descriptor parses and the creator
   * returns a descriptor; on failure the handle reads as closed; the
   * creator is called only for a parsed descriptor; `is_connected` is never
   * written.
   */
  lemma InitResult(v: SockView, info: string, created: int)
    requires Defined(info)
    ensures var o := InitEffect(v, info, created);
      (o.ret == 0 <==> ParseSocketInfo(info).Success? && created >= 0) &&
      (o.ret != 0 ==> o.view.fd < 0) &&
      (o.ret == 0 ==> o.view.fd == created && IsConcrete(o.view.sockType)) &&
      (o.call.Some? <==> ParseSocketInfo(info).Success?) &&
      o.view.isConnected == v.isConnected
  {
    var r := ParseSocketInfo(info);
    if r.Success? {
      CreateCallOfParse(r.value);
    }
  }

  /**
   * For a parsed descriptor the switch of sock_init picks the creator of its
   * transport and role: tcp servers get backlog 1024, unix sockets the
   * datagram creators, and each gets the address the parse stored.
   */
  lemma CreateCallOfParse(ep: Endpoint)
    requires Shaped(ep)
    ensures var c := CreateCallFor(TypeCode(ep.transport, ep.role), ep.addr);
      c.Some? &&
      (ep.transport == Tcp && ep.role == Server ==> c.value == TcpServerCreate(ep.addr.ip, ep.addr.port, BACKLOG)) &&
      (ep.transport == Tcp && ep.role == Client ==> c.value == TcpClientCreate(ep.addr.ip, ep.addr.port)) &&
      (ep.transport == Udp && ep.role == Server ==> c.value == UdpServerCreate(ep.addr.ip, ep.addr.port)) &&
      (ep.transport == Udp && ep.role == Client ==> c.value == UdpClientCreate(ep.addr.ip, ep.addr.port)) &&
      (ep.transport == Unix && ep.role == Server ==> c.value == UnixUdpServerCreate(ep.addr.path)) &&
      (ep.transport == Unix && ep.role == Client ==> c.value == UnixUdpClientCreate(ep.addr.path))
  {
    TypeCodeLayout(ep.transport, ep.role);
  }

  /** What one sock_read or sock_write call returns, the descriptor it leaves, and how many system calls it made. */
  datatype Step = Step(ret: int, fdAfter: int, calls: nat)

  /**
   * sock_write: a closed handle is refused; otherwise Write, and on an error
   * the handle is closed with safe_close.
   */
  function WriteStep(fd: int, len: nat, outcomes: seq<Util.SysResult>): Step
    requires fd >= 0 && len > 0 ==> Util.Settles(outcomes)
  {
    if fd < 0 then Step(-1, fd, 0)
    else
      var ret := Util.WriteResult(fd, true, len, outcomes);
      var calls := Util.SyscallCount(fd, true, len, outcomes);
      if ret < 0 then Step(-1, Util.SafeClosed(fd), calls) else Step(ret, fd, calls)
  }

  /**
   * sock_read: its closed-handle test compares a 0-or-1 value with `< 0`, so
   * it never refuses; Read refuses a negative descriptor itself. On any
   * negative result of Read, EAGAIN included, the handle is closed.
   */
  function ReadStep(fd: int, size: nat, outcomes: seq<Util.SysResult>): Step
    requires fd >= 0 && size > 0 ==> Util.Settles(outcomes)
  {
    var ret := Util.ReadResult(fd, true, size, outcomes);
    var calls := Util.SyscallCount(fd, true, size, outcomes);
    if ret < 0 then Step(-1, Util.SafeClosed(fd), calls) else Step(ret, fd, calls)
  }

  /** The close(2) calls a step makes: one, when it fails on a positive descriptor. */
  function StepCloses(fd: int, s: Step): seq<int> {
    if s.ret < 0 then Util.CloseCalls(fd) else []
  }

  /**
   * sock_write: a closed handle is refused without a system call; a
   * would-block write returns 0 and keeps the handle; any other failure
   * returns -1 and closes a positive descriptor; a success returns the
   * count written, which is at most `len`, and keeps the handle.
   */
  lemma WriteStepOutcome(fd: int, len: nat, outcomes: seq<Util.SysResult>)
    requires fd >= 0 && len > 0 ==> Util.Settles(outcomes)
    requires Util.Bounded(outcomes, len)
    ensures fd < 0 ==> WriteStep(fd, len, outcomes) == Step(-1, fd, 0)
    ensures fd >= 0 && len > 0 && Util.WouldBlock(outcomes[Util.FirstSettled(outcomes)]) ==>
      WriteStep(fd, len, outcomes).ret == 0 && WriteStep(fd, len, outcomes).fdAfter == fd
    ensures var s := WriteStep(fd, len, outcomes);
      -1 <= s.ret <= len && (s.ret >= 0 ==> s.fdAfter == fd) && (s.ret < 0 && fd > 0 ==> s.fdAfter == -1)
  {
    Util.WriteResultRange(fd, true, len, outcomes);
  }

  /**
   * sock_read: a negative descriptor is refused by Read without a system
   * call, exactly as sock_write refuses it; a would-block read returns -1
   * and closes the handle; a success returns at most `size` and keeps it.
   */
  lemma ReadStepOutcome(fd: int, size: nat, outcomes: seq<Util.SysResult>)
    requires fd >= 0 && size > 0 ==> Util.Settles(outcomes)
    requires Util.Bounded(outcomes, size)
    ensures fd < 0 ==> ReadStep(fd, size, outcomes) == WriteStep(fd, size, outcomes) == Step(-1, fd, 0)
    ensures fd > 0 && size > 0 && Util.WouldBlock(outcomes[Util.FirstSettled(outcomes)]) ==>
      ReadStep(fd, size, outcomes) == Step(-1, -1, Util.FirstSettled(outcomes) + 1)
    ensures var s := ReadStep(fd, size, outcomes);
      -1 <= s.ret <= size && (s.ret >= 0 ==> s.fdAfter == fd) && (s.ret < 0 && fd > 0 ==> s.fdAfter == -1)
  {
    Util.ReadResultRange(fd, true, size, outcomes);
  }

  /**
   * A handle after sock_term has descriptor 0, which sock_is_closed reports
   * as open, and the unknown type, which sock_read asserts against. With
   * assertions enabled reading it aborts; with them compiled out (NDEBUG)
   * it issues read(2) on descriptor 0, and a failure there does not close it.
   */
  lemma TermedHandleReadsFdZero(size: nat, outcomes: seq<Util.SysResult>)
    requires size > 0 && Util.Settles(outcomes)
    ensures ZERO.fd >= 0 && ZERO.sockType == SOCK_UNKONW_TYPE
    ensures ReadStep(ZERO.fd, size, outcomes).calls >= 1
    ensures ReadStep(ZERO.fd, size, outcomes).fdAfter == 0
  {
  }

  /** The call sock_accept makes: the listening descriptor and the family of the address buffer. */
  datatype AcceptCall = AcceptCall(listenFd: int, family: int)

  class Sock {
    var fd: int
    var domain: int
    var sockType: int
    var isConnected: int
    var addr: Address

    /** The fields as a value. */
    ghost function View(): SockView
      reads this
    {
      SockView(fd, domain, sockType, isConnected, addr)
    }

    /** MALLOC(sizeof(sock_t)): calloc, so every field is zero. */
    constructor Calloc()
      ensures View() == ZERO
    {
      fd, domain, sockType, isConnected, addr := 0, 0, SOCK_UNKONW_TYPE, 0, Zeroed;
    }

    /** sock_fd. */
    function Fd(): (r: int)
      reads this
      ensures r == fd
    {
      fd
    }

    /** sock_is_closed: 1 for a negative descriptor, else 0. */
    function IsClosed(): (r: int)
      reads this
      ensures r == 1 <==> fd < 0
      ensures r == 0 || r == 1
    {
      if Fd() < 0 then 1 else 0
    }

    /** _parse_socket_info, storing into this handle. */
    method ParseInfo(info: string) returns (ret: int)
      requires Defined(info)
      modifies this
      ensures View() == StoreParse(old(View()), ParseSocketInfo(info))
      ensures ret == 0 <==> ParseSocketInfo(info).Success?
      ensures ret == 0 || ret == -1
    {
      var r := ParseSocketInfo(info);
      match r
      case Failure(NoRole) =>
        ret := -1;
      case Failure(NoTransport) =>
        ret := -1;
      case Failure(BadAddress(code, _)) =>
        sockType := code;
        ret := -1;
      case Success(ep) =>
        sockType := TypeCode(ep.transport, ep.role);
        addr := ep.addr;
        if ep.family.Some? {
          domain := ep.family.value;
        }
        ret := 0;
    }

    /** sock_init: `created` is the result of the creator it calls, recorded in `call`. */
    method Init(info: string, created: int) returns (ret: int, call: Option<CreateCall>)
      requires Defined(info)
      modifies this
      ensures InitEffect(old(View()), info, created) == InitOutcome(View(), ret, call)
    {
      fd := -1;
      var parsed := ParseInfo(info);
      if parsed < 0 {
        return -1, None;
      }
      call := CreateCallFor(sockType, addr);
      if call.None? {
        return -1, None;
      }
      fd := created;
      ret := if fd < 0 then -1 else 0;
    }

    /** sock_close: safe_close on the descriptor. */
    method Close(os: Os)
      modifies this`fd, os`closed
      ensures fd == Util.SafeClosed(old(fd))
      ensures os.closed == old(os.closed) + Util.CloseCalls(old(fd))
    {
      fd := Util.SafeClose(os, fd);
    }

    /** sock_term: safe_close, then every field zero. */
    method Term(os: Os)
      modifies this, os`closed
      ensures View() == ZERO
      ensures os.closed == old(os.closed) + Util.CloseCalls(old(fd))
    {
      Close(os);
      fd, domain, sockType, isConnected, addr := 0, 0, SOCK_UNKONW_TYPE, 0, Zeroed;
    }

    /** sock_write of `len` bytes; `outcomes` are the kernel's answers to write(2). */
    method Write(os: Os, len: nat, outcomes: seq<Util.SysResult>) returns (ret: int, calls: nat)
      requires sockType != SOCK_UNKONW_TYPE
      requires fd >= 0 && len > 0 ==> Util.Settles(outcomes)
      modifies this`fd, os`closed
      ensures Step(ret, fd, calls) == WriteStep(old(fd), len, outcomes)
      ensures os.closed == old(os.closed) + StepCloses(old(fd), Step(ret, fd, calls))
    {
      if IsClosed() == 1 {
        return -1, 0;
      }
      ret, calls := Util.Write(Fd(), true, len, outcomes);
      if ret < 0 {
        Close(os);
        ret := -1;
      }
    }

    /** sock_read of up to `size` bytes; `outcomes` are the kernel's answers to read(2). */
    method Read(os: Os, size: nat, outcomes: seq<Util.SysResult>) returns (ret: int, calls: nat)
      requires sockType != SOCK_UNKONW_TYPE
      requires fd >= 0 && size > 0 ==> Util.Settles(outcomes)
      modifies this`fd, os`closed
      ensures Step(ret, fd, calls) == ReadStep(old(fd), size, outcomes)
      ensures os.closed == old(os.closed) + StepCloses(old(fd), Step(ret, fd, calls))
    {
      if IsClosed() < 0 {
        // sock_is_closed gives 0 or 1, so this refusal is never taken
        assert false;
      }
      ret, calls := Util.Read(Fd(), true, size, outcomes);
      if ret < 0 {
        Close(os);
        ret := -1;
      }
    }

    /**
     * sock_accept on a tcp server handle. `accepted` is Accept's result and
     * `peer` the text inet_ntop writes and the port of the peer. On success
     * the client handle gets the descriptor, the server's domain, the tcp
     * client type and the peer address; `is_connected` is left as it was.
     */
    method Accept(cli: Sock, accepted: int, peerIp: string, peerPort: u16) returns (ret: int, call: AcceptCall)
      requires sockType == SOCK_TCP_SERVER
      modifies cli
      ensures call == AcceptCall(old(fd), if old(domain) == AF_INET then AF_INET else AF_INET6)
      ensures accepted < 0 ==> ret == -1 && cli.View() == old(cli.View())
      ensures accepted >= 0 ==>
        ret == 0 &&
        cli.View() == old(cli.View()).(fd := accepted, domain := old(domain), sockType := SOCK_TCP_CLIENT,
                                       addr := Net(peerIp, peerPort))
    {
      call := AcceptCall(Fd(), if domain == AF_INET then AF_INET else AF_INET6);
      if accepted < 0 {
        return -1, call;
      }
      var d := domain;
      cli.fd := accepted;
      cli.domain := d;
      cli.sockType := SOCK_TCP_CLIENT;
      cli.addr := Net(peerIp, peerPort);
      ret := 0;
    }

    /** sock_set_nonblock: set_nonblock on the descriptor. */
    method SetNonblock(os: Os, accepted: bool) returns (r: int)
      modifies os`flags, os`setfl
      ensures os.flags == Util.AfterNonblock(old(os.flags), fd, accepted)
      ensures os.setfl == old(os.setfl) +
        (if Util.WritesFlags(old(os.flags), fd) then [(fd, Util.WithNonblock(old(os.flags)[fd]))] else [])
      ensures r == 0 <==> Util.NonblockOk(old(os.flags), fd, accepted)
      ensures r == 0 || r == -1
      ensures r == 0 ==> fd in os.flags && os.flags[fd] & Util.O_NONBLOCK != 0
    {
      r := Util.SetNonblock(os, Fd(), accepted);
    }
  }

  /** sock_lcopy: copies every field when both handles are given. */
  method Lcopy(src: Sock?, dst: Sock?)
    modifies dst
    ensures src != null && dst != null ==> dst.View() == old(src.View())
    ensures src == null || dst == null ==> dst == null || dst.View() == old(dst.View())
  {
    if src != null && dst != null {
      dst.fd, dst.domain, dst.sockType, dst.isConnected, dst.addr :=
        src.fd, src.domain, src.sockType, src.isConnected, src.addr;
    }
  }

  /**
   * sock_new: `obtained` is whether calloc succeeded and `created` the
   * creator's result. A handle whose sock_init fails is freed and NULL is
   * returned.
   */
  method New(os: Os, info: string, obtained: bool, created: int) returns (r: Sock?)
    requires Defined(info)
    modifies os`freed
    ensures var o := InitEffect(ZERO, info, created);
      (r != null <==> obtained && o.ret == 0) &&
      (r != null ==> fresh(r) && r.View() == o.view) &&
      (obtained && o.ret != 0 ==> |os.freed| == |old(os.freed)| + 1 && fresh(os.freed[|os.freed| - 1]) &&
                                    os.freed[..|os.freed| - 1] == old(os.freed)) &&
      (!(obtained && o.ret != 0) ==> os.freed == old(os.freed))
  {
    if !obtained {
      return null;
    }
    var s := new Sock.Calloc();
    var ret, _ := s.Init(info, created);
    r := s;
    if ret < 0 {
      r := Util.SafeFree(os, r);
    }
  }

  /** The `sock_t *` variable sock_destroy is given the address of. */
  class SockSlot {
    var sock: Sock?
    constructor (s: Sock?)
      ensures sock == s
    {
      sock := s;
    }
  }

  /** sock_destroy: sock_term, then safe_free, which also clears the caller's pointer. */
  method Destroy(os: Os, slot: SockSlot?)
    modifies slot, if slot != null && slot.sock != null then {slot.sock} else {}, os`closed, os`freed
    ensures slot != null && old(slot.sock) != null ==>
      slot.sock == null && old(slot.sock).View() == ZERO &&
      os.closed == old(os.closed) + Util.CloseCalls(old(slot.sock.fd)) &&
      os.freed == old(os.freed) + [old(slot.sock)]
    ensures slot == null || old(slot.sock) == null ==>
      os.closed == old(os.closed) && os.freed == old(os.freed)
    ensures slot != null && old(slot.sock) == null ==> slot.sock == null
  {
    if slot != null && slot.sock != null {
      var s := slot.sock;
      s.Term(os);
      slot.sock := Util.SafeFree(os, s);
    }
  }
}
