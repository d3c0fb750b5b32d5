/**
 * _parse_socket_info from clibs/sock.c: the endpoint descriptor
 * `{'@'|'>'}{"tcp"|"udp"|"unix"}<sep><address>` read with a running offset.
 *
 * The text is a C string (`NoNul`); the parser is a function of it whose
 * result `Sock.ParseInfo` stores into the handle.
 */
module SockParse {
  import opened Wrappers
  import opened CString
  import opened SockTypes

  /** The role marker: '@' for a server, '>' for a client. */
  function Marker(r: Role): char {
    if r == Server then '@' else '>'
  }

  /** The role read from the first character (a NUL for the empty text). */
  function RoleOf(t: string): Option<Role> {
    if |t| > 0 && t[0] == '@' then Some(Server)
    else if |t| > 0 && t[0] == '>' then Some(Client)
    else None
  }

  /** The keyword tests, tried in the source's order with strncmp over the keyword's length. */
  function TransportOf(s: string): Option<Transport> {
    if Keyword(Tcp) <= s then Some(Tcp)
    else if Keyword(Udp) <= s then Some(Udp)
    else if Keyword(Unix) <= s then Some(Unix)
    else None
  }

  /** The offset of the address text: the marker, the keyword and one separator skipped unchecked. */
  function AddrStart(t: Transport): nat {
    1 + |Keyword(t)| + 1
  }

  /** The `uint8_t` the lengths are stored in. */
  function U8(x: nat): (r: nat)
    ensures r < 0x100 && r <= x
    ensures x < 0x100 ==> r == x
    ensures (x - r) % 0x100 == 0
  {
    x % 0x100
  }

  /** Why an address is refused once the type has been stored. */
  datatype AddrFault = UnclosedBracket | IpTooLong | NoPortSeparator

  /**
   * A refusal. The first two leave the handle alone; a bad address comes
   * after the type code has been written into the handle and carries it.
   */
  datatype ParseError = NoRole | NoTransport | BadAddress(typeCode: int, fault: AddrFault)

  /**
   * A parsed descriptor. `family` is None for Unix sockets, whose parse
   * does not touch the handle's domain.
   */
  datatype Endpoint = Endpoint(transport: Transport, role: Role, family: Option<int>, addr: Address)

  /**
   * The union member a parse writes matches the transport: the path for
   * unix sockets, the ip and port (with a domain) for tcp and udp.
   */
  predicate Shaped(ep: Endpoint) {
    (ep.transport == Unix <==> ep.addr.UnixPath?) &&
    (ep.transport == Unix <==> ep.family.None?) &&
    (ep.addr.Net? || ep.addr.UnixPath?)
  }

  /** The ip, its family, and where the port starts, relative to the address text. */
  datatype IpSplit = IpSplit(ip: string, family: int, portAt: nat)

  /**
   * The ip part of a tcp or udp address (sock.c:84-115): a '[' anywhere
   * selects the bracketed form, otherwise the text up to the first ':'.
   */
  function SplitIp(rest: string): (r: Result<IpSplit, AddrFault>)
    ensures r.Success? ==> |r.value.ip| < IP_CAPACITY && r.value.family in {AF_INET, AF_INET6}
  {
    match Find(rest, '[')
    case Some(i) =>
      (match Find(rest[i..], ']')
       case None => Failure(UnclosedBracket)
       case Some(j) =>
         var len := U8(j - 1);
         if len > IP_CAPACITY - 1 then Failure(IpTooLong)
         else Success(IpSplit(rest[i + 1..i + 1 + len], AF_INET6, len + 1 + 2)))
    case None =>
      match Find(rest, ':')
      case None => Failure(NoPortSeparator)
      case Some(k) =>
        var len := U8(k);
        if len > IP_CAPACITY - 1 then Failure(IpTooLong)
        else
          var ip := rest[..len];
          Success(IpSplit(ip, if |ip| > 0 && ip[0] == '*' then AF_INET6 else AF_INET, len + 1))
  }

  /** The port: atoi of the remaining text, stored in a `uint16_t`. */
  function PortOf(s: string): (p: u16)
    ensures 0 <= Atoi(s) < 0x1_0000 ==> p == Atoi(s)
    ensures (p - Atoi(s)) % 0x1_0000 == 0
  {
    U16(Atoi(s))
  }

  /** The conversion of an `int` to `uint16_t`: the low sixteen bits. */
  function U16(x: int): (r: u16)
    ensures 0 <= x < 0x1_0000 ==> r == x
    ensures (r - x) % 0x1_0000 == 0
  {
    x % 0x1_0000
  }

  /** The address text of a tcp or udp descriptor holds the text atoi starts from. */
  predicate NetDefined(rest: string) {
    match SplitIp(rest)
    case Success(s) => s.portAt <= |rest|
    case Failure(_) => true
  }

  /**
   * The parser reads nothing past the terminator: the skipped separator
   * exists, and so does the text atoi starts from.
   */
  predicate Defined(t: string) {
    NoNul(t) &&
    (RoleOf(t).Some? && TransportOf(t[1..]).Some? ==>
      var tr := TransportOf(t[1..]).value;
      AddrStart(tr) <= |t| && (tr != Unix ==> NetDefined(t[AddrStart(tr)..])))
  }

  /** The address part of _parse_socket_info, once the type code is known. */
  function ParseAddress(tr: Transport, role: Role, rest: string): (r: Result<Endpoint, ParseError>)
    requires tr != Unix ==> NetDefined(rest)
    ensures r.Success? ==> r.value.transport == tr && r.value.role == role && Shaped(r.value)
    ensures r.Success? && tr != Unix ==> r.value.addr.Net? && |r.value.addr.ip| < IP_CAPACITY
    ensures r.Success? && tr == Unix ==> |r.value.addr.path| <= UPATH_CAPACITY
    ensures r.Failure? ==> tr != Unix && r.error.BadAddress? && r.error.typeCode == TypeCode(tr, role)
  {
    if TypeCode(tr, role) > SOCK_UNIX then
      Success(Endpoint(tr, role, None, UnixPath(Strncpy(rest, UPATH_CAPACITY))))
    else
      match SplitIp(rest)
      case Failure(f) => Failure(BadAddress(TypeCode(tr, role), f))
      case Success(s) => Success(Endpoint(tr, role, Some(s.family), Net(s.ip, PortOf(rest[s.portAt..]))))
  }

  /** _parse_socket_info. */
  function ParseSocketInfo(t: string): (r: Result<Endpoint, ParseError>)
    requires Defined(t)
    ensures r.Success? ==> |t| > 0 && t[0] == Marker(r.value.role) && Keyword(r.value.transport) <= t[1..]
    ensures r.Success? ==> Shaped(r.value)
    ensures r == Failure(NoRole) <==> (|t| == 0 || (t[0] != '@' && t[0] != '>'))
  {
    match RoleOf(t)
    case None => Failure(NoRole)
    case Some(role) =>
      match TransportOf(t[1..])
      case None => Failure(NoTransport)
      case Some(tr) => ParseAddress(tr, role, t[AddrStart(tr)..])
  }

  /** The text a descriptor starts with: marker, keyword, one separator character. */
  function Head(r: Role, tr: Transport, sep: char): string {
    [Marker(r)] + Keyword(tr) + [sep]
  }

  /** Each keyword, followed by anything, is recognised as its own transport. */
  lemma KeywordRecognised(tr: Transport, s: string)
    ensures TransportOf(Keyword(tr) + s) == Some(tr)
  {
    var t := Keyword(tr) + s;
    assert t[..|Keyword(tr)|] == Keyword(tr);
    match tr
    case Tcp =>
    case Udp =>
      assert t[0] == 'u';
    case Unix =>
      assert t[0] == 'u' && t[1] == 'n';
  }

  /** Whatever the separator is, the header of a well-formed descriptor is recognised. */
  lemma HeadRecognised(r: Role, tr: Transport, sep: char, rest: string)
    ensures |Head(r, tr, sep)| == AddrStart(tr)
    ensures var t := Head(r, tr, sep) + rest;
      RoleOf(t) == Some(r) && TransportOf(t[1..]) == Some(tr) && t[AddrStart(tr)..] == rest
  {
    var t := Head(r, tr, sep) + rest;
    assert t[1..] == Keyword(tr) + ([sep] + rest);
    KeywordRecognised(tr, [sep] + rest);
    assert t[AddrStart(tr)..] == rest;
  }

  /**
   * Past a recognised header, the parse is the parse of the address text,
   * and only a tcp or udp address can read past the terminator.
   */
  lemma Header(r: Role, tr: Transport, sep: char, rest: string)
    requires sep != '\0' && NoNul(rest)
    ensures var t := Head(r, tr, sep) + rest;
      (Defined(t) <==> (tr != Unix ==> NetDefined(rest))) &&
      (Defined(t) ==> ParseSocketInfo(t) == ParseAddress(tr, r, rest))
  {
    var t := Head(r, tr, sep) + rest;
    HeadRecognised(r, tr, sep, rest);
    assert NoNul(Keyword(tr));
    assert NoNul(t) by {
      forall i | 0 <= i < |t| ensures t[i] != '\0' {
        if i >= |Head(r, tr, sep)| {
          assert t[i] == rest[i - |Head(r, tr, sep)|];
        }
      }
    }
  }

  /**
   * The bracketed address text: the ip runs from the first '[' to the next
   * ']', its length cast to uint8_t, and the port is counted from the start
   * of the text, not from the bracket.
   */
  lemma SplitBracketed(pre: string, inner: string, tail: string)
    requires '[' !in pre && ']' !in inner
    ensures var len := U8(|inner|);
      SplitIp(pre + "[" + inner + "]" + tail) ==
        if len > IP_CAPACITY - 1 then Failure(IpTooLong)
        else Success(IpSplit(inner[..len], AF_INET6, len + 3))
  {
    var rest := pre + "[" + inner + "]" + tail;
    BracketsFound(pre, inner, tail);
    var len := U8(|inner|);
    assert rest[|pre| + 1..|pre| + 1 + len] == inner[..len];
  }

  /** Where SplitIp finds the brackets of a bracketed address text. */
  lemma BracketsFound(pre: string, inner: string, tail: string)
    requires '[' !in pre && ']' !in inner
    ensures var rest := pre + "[" + inner + "]" + tail;
      Find(rest, '[') == Some(|pre|) && Find(rest[|pre|..], ']') == Some(|inner| + 1)
  {
    var rest := pre + "[" + inner + "]" + tail;
    var after := inner + "]" + tail;
    assert rest == pre + ['['] + after;
    FindAfter(pre, '[', after);
    var open := ['['] + inner;
    assert ']' !in open;
    FindAfter(open, ']', tail);
    assert rest[|pre|..] == open + [']'] + tail;
  }

  /** A '[' with no ']' after it. */
  lemma SplitUnclosed(pre: string, post: string)
    requires '[' !in pre && ']' !in post
    ensures SplitIp(pre + "[" + post) == Failure(UnclosedBracket)
  {
    var rest := pre + "[" + post;
    assert rest == pre + ['['] + post;
    FindAfter(pre, '[', post);
    assert rest[|pre|..] == "[" + post;
    assert ']' !in "[" + post;
    FindFirst("[" + post, ']');
  }

  /**
   * The bare address text: the ip runs to the first ':', its length cast to
   * uint8_t; it is IPv6 exactly when it starts with '*'.
   */
  lemma SplitBare(ip: string, tail: string)
    requires '[' !in ip && '[' !in tail && ':' !in ip
    ensures var len := U8(|ip|);
      var ip' := ip[..len];
      SplitIp(ip + ":" + tail) ==
        if len > IP_CAPACITY - 1 then Failure(IpTooLong)
        else Success(IpSplit(ip', if |ip'| > 0 && ip'[0] == '*' then AF_INET6 else AF_INET, len + 1))
  {
    var rest := ip + ":" + tail;
    assert rest == ip + [':'] + tail;
    assert '[' !in rest;
    FindFirst(rest, '[');
    FindAfter(ip, ':', tail);
    var len := U8(|ip|);
    assert rest[..len] == ip[..len];
  }

  /**
   * A unix descriptor always parses: the character after the keyword is
   * skipped whatever it is, and the rest is the path, cut to 108 characters.
   */
  lemma ParseUnix(r: Role, sep: char, path: string)
    requires sep != '\0' && NoNul(path)
    ensures var t := Head(r, Unix, sep) + path;
      Defined(t) &&
      ParseSocketInfo(t) == Success(Endpoint(Unix, r, None, UnixPath(Strncpy(path, UPATH_CAPACITY))))
  {
    Header(r, Unix, sep, path);
  }

  /**
   * The bracketed form. The first '[' may stand anywhere in the address
   * text, after any `pre`; the ip is what follows it up to the next ']',
   * as long as that length, cast to uint8_t, is at most 63; the domain is
   * IPv6; and the port is read |ip| + 3 characters after the start of the
   * address text, wherever the bracket was.
   */
  lemma ParseBracketed(r: Role, tr: Transport, sep: char, pre: string, inner: string, tail: string)
    requires tr != Unix && sep != '\0'
    requires NoNul(pre + "[" + inner + "]" + tail)
    requires '[' !in pre && ']' !in inner
    requires |pre| + |tail| > 0
    ensures var rest := pre + "[" + inner + "]" + tail;
      var t := Head(r, tr, sep) + rest;
      var len := U8(|inner|);
      Defined(t) &&
      (len > IP_CAPACITY - 1 ==>
        ParseSocketInfo(t) == Failure(BadAddress(TypeCode(tr, r), IpTooLong))) &&
      (len <= IP_CAPACITY - 1 ==>
        ParseSocketInfo(t) == Success(Endpoint(tr, r, Some(AF_INET6), Net(inner[..len], PortOf(rest[len + 3..])))))
  {
    var rest := pre + "[" + inner + "]" + tail;
    AddressBracketed(r, tr, pre, inner, tail);
    Header(r, tr, sep, rest);
  }

  /** The address part of ParseBracketed. */
  lemma AddressBracketed(r: Role, tr: Transport, pre: string, inner: string, tail: string)
    requires tr != Unix
    requires '[' !in pre && ']' !in inner
    requires |pre| + |tail| > 0
    ensures var rest := pre + "[" + inner + "]" + tail;
      var len := U8(|inner|);
      NetDefined(rest) &&
      ParseAddress(tr, r, rest) ==
        if len > IP_CAPACITY - 1 then Failure(BadAddress(TypeCode(tr, r), IpTooLong))
        else Success(Endpoint(tr, r, Some(AF_INET6), Net(inner[..len], PortOf(rest[len + 3..]))))
  {
    var rest := pre + "[" + inner + "]" + tail;
    SplitBracketed(pre, inner, tail);
    var len := U8(|inner|);
    if len <= IP_CAPACITY - 1 {
      assert SplitIp(rest) == Success(IpSplit(inner[..len], AF_INET6, len + 3));
    }
    AddressOfSplit(tr, r, rest);
  }

  /** A tcp or udp address is refused with SplitIp's fault, or holds SplitIp's ip and family. */
  lemma AddressOfSplit(tr: Transport, r: Role, rest: string)
    requires tr != Unix && NetDefined(rest)
    ensures SplitIp(rest).Failure? ==>
      ParseAddress(tr, r, rest) == Failure(BadAddress(TypeCode(tr, r), SplitIp(rest).error))
    ensures SplitIp(rest).Success? ==>
      var s := SplitIp(rest).value;
      ParseAddress(tr, r, rest) == Success(Endpoint(tr, r, Some(s.family), Net(s.ip, PortOf(rest[s.portAt..]))))
  {
    assert TypeCode(tr, r) < SOCK_UNIX;
  }

  /** A '[' with no ']' after it is refused. */
  lemma ParseUnclosed(r: Role, tr: Transport, sep: char, pre: string, post: string)
    requires tr != Unix && sep != '\0'
    requires NoNul(pre + "[" + post)
    requires '[' !in pre && ']' !in post
    ensures var t := Head(r, tr, sep) + (pre + "[" + post);
      Defined(t) && ParseSocketInfo(t) == Failure(BadAddress(TypeCode(tr, r), UnclosedBracket))
  {
    SplitUnclosed(pre, post);
    Header(r, tr, sep, pre + "[" + post);
  }

  /**
   * The bare form: the ip runs to the first ':', its length cast to uint8_t
   * must be at most 63, the domain is IPv6 exactly when the ip starts with
   * '*', and the port is read right after the ':'.
   */
  lemma ParseBare(r: Role, tr: Transport, sep: char, ip: string, tail: string)
    requires tr != Unix && sep != '\0'
    requires NoNul(ip + ":" + tail)
    requires '[' !in ip && '[' !in tail && ':' !in ip
    ensures var rest := ip + ":" + tail;
      var t := Head(r, tr, sep) + rest;
      var len := U8(|ip|);
      var ip' := ip[..len];
      Defined(t) &&
      (len > IP_CAPACITY - 1 ==>
        ParseSocketInfo(t) == Failure(BadAddress(TypeCode(tr, r), IpTooLong))) &&
      (len <= IP_CAPACITY - 1 ==>
        ParseSocketInfo(t) == Success(Endpoint(tr, r,
          Some(if |ip'| > 0 && ip'[0] == '*' then AF_INET6 else AF_INET),
          Net(ip', PortOf(rest[len + 1..])))))
  {
    var rest := ip + ":" + tail;
    AddressBare(r, tr, ip, tail);
    Header(r, tr, sep, rest);
  }

  /** The address part of ParseBare. */
  lemma AddressBare(r: Role, tr: Transport, ip: string, tail: string)
    requires tr != Unix
    requires '[' !in ip && '[' !in tail && ':' !in ip
    ensures var rest := ip + ":" + tail;
      var len := U8(|ip|);
      var ip' := ip[..len];
      NetDefined(rest) &&
      ParseAddress(tr, r, rest) ==
        if len > IP_CAPACITY - 1 then Failure(BadAddress(TypeCode(tr, r), IpTooLong))
        else Success(Endpoint(tr, r, Some(if |ip'| > 0 && ip'[0] == '*' then AF_INET6 else AF_INET),
                              Net(ip', PortOf(rest[len + 1..]))))
  {
    var rest := ip + ":" + tail;
    SplitBare(ip, tail);
    var len := U8(|ip|);
    if len <= IP_CAPACITY - 1 {
      var ip' := ip[..len];
      var split := IpSplit(ip', if |ip'| > 0 && ip'[0] == '*' then AF_INET6 else AF_INET, len + 1);
      assert SplitIp(rest) == Success(split);
    }
    AddressOfSplit(tr, r, rest);
  }

  /** Without a '[' or a ':' the address is refused. */
  lemma ParseNoSeparator(r: Role, tr: Transport, sep: char, rest: string)
    requires tr != Unix && sep != '\0' && NoNul(rest)
    requires '[' !in rest && ':' !in rest
    ensures var t := Head(r, tr, sep) + rest;
      Defined(t) && ParseSocketInfo(t) == Failure(BadAddress(TypeCode(tr, r), NoPortSeparator))
  {
    FindFirst(rest, '[');
    FindFirst(rest, ':');
    Header(r, tr, sep, rest);
  }

  /** An empty or non-numeric port text gives port 0, not a refusal. */
  lemma PortOfNonNumeric(s: string)
    requires |s| == 0 || (!IsSpace(s[0]) && !IsDigit(s[0]) && s[0] != '+' && s[0] != '-')
    ensures PortOf(s) == 0
  {
    AtoiOfNonNumeric(s);
  }

  /**
   * A number spelled in decimal, followed by any non-digit text, is read as
   * that number wrapped into 16 bits, as long as atoi does not overflow.
   */
  lemma PortOfDecimal(n: nat, tail: string)
    requires n <= INT_MAX
    requires |tail| == 0 || !IsDigit(tail[0])
    ensures PortOf(Decimal(n) + tail) == n % 0x1_0000
  {
    var s := Decimal(n) + tail;
    AtoiOfDecimal(n, tail);
    assert Atoi(s) == n;
  }

  /**
   * A negative number is stored in the `uint16_t` port modulo 65536: "-1"
   * gives 65535.
   */
  lemma PortOfNegative(d: string, tail: string, m: int)
    requires |d| > 0 && AllDigits(d) && Value(d) == -m && -m <= INT_MAX
    requires |tail| == 0 || !IsDigit(tail[0])
    ensures PortOf("-" + d + tail) == m % 0x1_0000
  {
    AtoiOfNegative(d, tail, -m);
    PortOfValue("-" + d + tail, m);
  }

  /** The port is atoi's result modulo 65536. */
  lemma PortOfValue(s: string, v: int)
    requires Atoi(s) == v
    ensures PortOf(s) == v % 0x1_0000
  {
  }

  /**
   * A bracketed address needs no ':' before its port: the character after
   * the ']' is skipped unchecked, so `[ip]` followed by one character and
   * nothing else parses, with port 0.
   */
  lemma ParseBracketedNoPort(r: Role, tr: Transport, sep: char, inner: string, c: char)
    requires tr != Unix && sep != '\0' && c != '\0'
    requires NoNul(inner) && ']' !in inner && |inner| < IP_CAPACITY
    ensures var t := Head(r, tr, sep) + ("[" + inner + "]" + [c]);
      Defined(t) && ParseSocketInfo(t) == Success(Endpoint(tr, r, Some(AF_INET6), Net(inner, 0)))
  {
    var rest := "" + "[" + inner + "]" + [c];
    assert rest == "[" + inner + "]" + [c];
    assert NoNul(rest) by {
      forall i | 0 <= i < |rest| ensures rest[i] != '\0' {
        if 0 < i <= |inner| {
          assert rest[i] == inner[i - 1];
        }
      }
    }
    ParseBracketed(r, tr, sep, "", inner, [c]);
    assert U8(|inner|) == |inner| && inner[..|inner|] == inner;
    assert rest[|inner| + 3..] == "";
    PortOfNonNumeric("");
  }

  /** The descriptors the syntax is meant for. */
  datatype Descriptor =
    | UnixDesc(role: Role, path: string)
    | NetDesc(role: Role, transport: Transport, ip: string, port: u16, bracketed: bool)

  predicate WellFormed(d: Descriptor) {
    match d
    case UnixDesc(_, path) => NoNul(path) && |path| <= UPATH_CAPACITY
    case NetDesc(_, tr, ip, _, bracketed) =>
      tr != Unix && NoNul(ip) && |ip| < IP_CAPACITY && '[' !in ip && ']' !in ip &&
      (!bracketed ==> ':' !in ip)
  }

  /** The address text of a tcp or udp descriptor, given the spelling of the port. */
  function NetText(ip: string, digits: string, bracketed: bool): string {
    (if bracketed then "[" + ip + "]" else ip) + ":" + digits
  }

  /** The text of a descriptor, with ':' as separator. */
  function Format(d: Descriptor): string {
    match d
    case UnixDesc(r, path) => Head(r, Unix, ':') + path
    case NetDesc(r, tr, ip, port, bracketed) => Head(r, tr, ':') + NetText(ip, Decimal(port), bracketed)
  }

  /** What a descriptor is meant to denote. */
  function Meaning(d: Descriptor): Endpoint {
    match d
    case UnixDesc(r, path) => Endpoint(Unix, r, None, UnixPath(path))
    case NetDesc(r, tr, ip, port, bracketed) =>
      Endpoint(tr, r, Some(if bracketed || (|ip| > 0 && ip[0] == '*') then AF_INET6 else AF_INET), Net(ip, port))
  }

  /** The address text of a well-formed tcp or udp descriptor splits back into its ip and port text. */
  lemma NetTextSplits(ip: string, digits: string, bracketed: bool)
    requires |ip| < IP_CAPACITY && '[' !in ip && ']' !in ip && (!bracketed ==> ':' !in ip)
    requires AllDigits(digits)
    ensures var rest := NetText(ip, digits, bracketed);
      var s := SplitIp(rest);
      s.Success? && s.value.ip == ip && s.value.portAt <= |rest| && rest[s.value.portAt..] == digits &&
      s.value.family == (if bracketed || (|ip| > 0 && ip[0] == '*') then AF_INET6 else AF_INET)
  {
    var rest := NetText(ip, digits, bracketed);
    assert ip[..|ip|] == ip;
    if bracketed {
      var tail := ":" + digits;
      assert rest == "" + "[" + ip + "]" + tail;
      SplitBracketed("", ip, tail);
      assert rest[|ip| + 3..] == digits;
    } else {
      assert '[' !in digits;
      assert rest == ip + ":" + digits;
      SplitBare(ip, digits);
      assert rest[|ip| + 1..] == digits;
    }
  }

  /** The address text holds no terminator. */
  lemma NetTextNoNul(ip: string, digits: string, bracketed: bool)
    requires NoNul(ip) && AllDigits(digits)
    ensures NoNul(NetText(ip, digits, bracketed))
  {
    var open := if bracketed then "[" + ip + "]" else ip;
    assert NoNul(open);
    var rest := NetText(ip, digits, bracketed);
    forall i | 0 <= i < |rest| ensures rest[i] != '\0' {
      if i > |open| {
        assert rest[i] == digits[i - |open| - 1];
      }
    }
  }

  /** A tcp or udp descriptor text, with any digit string for the port, parses to its ip and port. */
  lemma NetParses(r: Role, tr: Transport, ip: string, digits: string, bracketed: bool)
    requires tr != Unix && NoNul(ip) && |ip| < IP_CAPACITY && '[' !in ip && ']' !in ip
    requires !bracketed ==> ':' !in ip
    requires AllDigits(digits)
    ensures var t := Head(r, tr, ':') + NetText(ip, digits, bracketed);
      Defined(t) && ParseSocketInfo(t) ==
        Success(Endpoint(tr, r, Some(if bracketed || (|ip| > 0 && ip[0] == '*') then AF_INET6 else AF_INET),
                         Net(ip, PortOf(digits))))
  {
    var rest := NetText(ip, digits, bracketed);
    NetTextSplits(ip, digits, bracketed);
    NetTextNoNul(ip, digits, bracketed);
    Header(r, tr, ':', rest);
  }

  /** A tcp or udp descriptor's text parses back to what it denotes. */
  lemma FormatParseNet(r: Role, tr: Transport, ip: string, port: u16, bracketed: bool)
    requires WellFormed(NetDesc(r, tr, ip, port, bracketed))
    ensures var d := NetDesc(r, tr, ip, port, bracketed);
      Defined(Format(d)) && ParseSocketInfo(Format(d)) == Success(Meaning(d))
  {
    var d := NetDesc(r, tr, ip, port, bracketed);
    var digits := Decimal(port);
    assert Format(d) == Head(r, tr, ':') + NetText(ip, digits, bracketed);
    NetParses(r, tr, ip, digits, bracketed);
    PortSpelling(port);
  }

  /** The decimal spelling of a port reads back as that port. */
  lemma PortSpelling(port: u16)
    ensures PortOf(Decimal(port)) == port
  {
    AtoiOfSpelling(port);
  }

  /** Every well-formed descriptor's text parses back to what it denotes. */
  lemma FormatParse(d: Descriptor)
    requires WellFormed(d)
    ensures Defined(Format(d)) && ParseSocketInfo(Format(d)) == Success(Meaning(d))
  {
    match d
    case UnixDesc(r, path) =>
      ParseUnix(r, ':', path);
    case NetDesc(r, tr, ip, port, bracketed) =>
      FormatParseNet(r, tr, ip, port, bracketed);
  }
}
