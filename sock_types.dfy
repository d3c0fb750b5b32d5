/**
 * clibs/sock.h: the socket type codes and their mask, the address union,
 * and sock_type_str from clibs/sock.c.
 */
module SockTypes {
  import opened Wrappers

  /** `uint16_t`. */
  type u16 = x: int | 0 <= x < 0x1_0000

  const AF_INET: int := 2
  const AF_INET6: int := 10

  const SOCKET_TYPE_MASK: bv8 := 0xf0

  /** The `sock_type_t` codes. */
  const SOCK_UNKONW_TYPE: int := 0
  const SOCK_TCP: int := 0x10
  const SOCK_TCP_SERVER: int := 0x11
  const SOCK_TCP_CLIENT: int := 0x12
  const SOCK_UDP: int := 0x20
  const SOCK_UDP_SERVER: int := 0x21
  const SOCK_UDP_CLIENT: int := 0x22
  const SOCK_UNIX: int := 0x30
  const SOCK_UNIX_SERVER: int := 0x31
  const SOCK_UNIX_CLIENT: int := 0x32

  /** Capacities of `netaddr.ip` and `upath`, terminator included for the ip. */
  const IP_CAPACITY: nat := 64
  const UPATH_CAPACITY: nat := 108

  datatype Transport = Tcp | Udp | Unix
  datatype Role = Server | Client

  /**
   * The `addr` union of `sock_t`, tagged by the member last written;
   * `Zeroed` is the all-zero union that MALLOC and sock_term leave.
   */
  datatype Address = Zeroed | Net(ip: string, port: u16) | UnixPath(path: string)

  /** The keyword naming a transport in a descriptor and in sock_type_str. */
  function Keyword(t: Transport): string {
    match t
    case Tcp => "tcp"
    case Udp => "udp"
    case Unix => "unix"
  }

  /** The base code of a transport: SOCK_TCP, SOCK_UDP or SOCK_UNIX. */
  function Base(t: Transport): int {
    match t
    case Tcp => SOCK_TCP
    case Udp => SOCK_UDP
    case Unix => SOCK_UNIX
  }

  /** The concrete code of a socket: the base plus 1 for a server, plus 2 for a client. */
  function TypeCode(t: Transport, r: Role): int {
    Base(t) + (if r == Server then 1 else 2)
  }

  /** `type & SOCKET_TYPE_MASK`. */
  function MaskedBase(code: int): int
    requires 0 <= code < 0x100
  {
    ((code as bv8) & SOCKET_TYPE_MASK) as int
  }

  /** The transport and role a code stands for, if it is one of the six concrete codes. */
  function Decode(code: int): (r: Option<(Transport, Role)>)
    ensures r.Some? ==> TypeCode(r.value.0, r.value.1) == code
  {
    if code == SOCK_TCP_SERVER then Some((Tcp, Server))
    else if code == SOCK_TCP_CLIENT then Some((Tcp, Client))
    else if code == SOCK_UDP_SERVER then Some((Udp, Server))
    else if code == SOCK_UDP_CLIENT then Some((Udp, Client))
    else if code == SOCK_UNIX_SERVER then Some((Unix, Server))
    else if code == SOCK_UNIX_CLIENT then Some((Unix, Client))
    else None
  }

  predicate IsConcrete(code: int) {
    Decode(code).Some?
  }

  /**
   * The codes are laid out as sock.h promises: masking recovers the
   * transport's base, the low nibble is 1 for servers and 2 for clients, and
   * Decode inverts the encoding.
   */
  lemma TypeCodeLayout(t: Transport, r: Role)
    ensures 0 < TypeCode(t, r) < 0x100
    ensures MaskedBase(TypeCode(t, r)) == Base(t)
    ensures TypeCode(t, r) - Base(t) == (if r == Server then 1 else 2)
    ensures Decode(TypeCode(t, r)) == Some((t, r))
  {
    match t
    case Tcp =>
      assert (0x11 as bv8) & 0xf0 == 0x10 && (0x12 as bv8) & 0xf0 == 0x10;
    case Udp =>
      assert (0x21 as bv8) & 0xf0 == 0x20 && (0x22 as bv8) & 0xf0 == 0x20;
    case Unix =>
      assert (0x31 as bv8) & 0xf0 == 0x30 && (0x32 as bv8) & 0xf0 == 0x30;
  }

  /** sock_type_str: the printable name of a code. */
  function TypeName(code: int): (r: string)
    ensures r == "unknow" <==> Decode(code).None?
  {
    if code == SOCK_TCP_SERVER then "tcp-serv"
    else if code == SOCK_TCP_CLIENT then "tcp-cli"
    else if code == SOCK_UDP_SERVER then "udp-serv"
    else if code == SOCK_UDP_CLIENT then "udp-cli"
    else if code == SOCK_UNIX_SERVER then "unix-serv"
    else if code == SOCK_UNIX_CLIENT then "unix-cli"
    else "unknow"
  }

  function RoleSuffix(r: Role): string {
    if r == Server then "serv" else "cli"
  }

  /**
   * sock_type_str names each concrete code by its transport keyword and
   * role, and every other code, the base codes and zero included, "unknow".
   */
  lemma TypeNameSpells(code: int)
    ensures Decode(code).Some? ==>
      TypeName(code) == Keyword(Decode(code).value.0) + "-" + RoleSuffix(Decode(code).value.1)
    ensures Decode(code).None? ==> TypeName(code) == "unknow"
  {
  }

  /** Different concrete codes get different names. */
  lemma TypeNameInjective(a: int, b: int)
    requires IsConcrete(a) && IsConcrete(b) && a != b
    ensures TypeName(a) != TypeName(b)
  {
    TypeNameSpells(a);
    TypeNameSpells(b);
    var (ta, ra) := Decode(a).value;
    var (tb, rb) := Decode(b).value;
    assert TypeName(a)[..2] == Keyword(ta)[..2];
    assert TypeName(b)[..2] == Keyword(tb)[..2];
    if ta == tb {
      assert ra != rb;
    }
  }
}
