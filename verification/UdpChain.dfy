/** UDP through a chain of proxies: every hop adds an address header and a packet cipher, and the
    replies come back wrapped the other way round. */
module UdpChain {
  import opened ByteStrings
  import opened Incremental
  import A = StreamAdapter

  /** The socket library's address conversions, and which byte strings decode as text. */
  datatype Net = Net(
    aton: Bytes -> Option<Bytes>, ntoa: Bytes -> Bytes, ntop: Bytes -> Bytes, text: Bytes -> bool)

  ghost predicate Sane(net: Net) {
    forall h :: net.aton(h).Some? ==> |net.aton(h).value| == 4
  }

  /** A cipher class with a fresh session for every packet, keyed by the vector in front of it. */
  datatype PacketCipher = PacketCipher(
    ivLength: nat, seal: (Bytes, Bytes) -> Option<Bytes>, open: (Bytes, Bytes) -> Option<Bytes>)

  ghost predicate Sound(c: PacketCipher) {
    forall iv, m | |iv| == c.ivLength && c.seal(iv, m).Some? :: c.open(iv, c.seal(iv, m).value) == Some(m)
  }

  function Encrypt(c: PacketCipher, iv: Bytes, data: Bytes): Option<Bytes> {
    match c.seal(iv, data)
    case None => None
    case Some(s) => Some(iv + s)
  }

  function Decrypt(c: PacketCipher, data: Bytes): Option<Bytes> {
    c.open(Take(data, c.ivLength), Drop(data, c.ivLength))
  }

  /** Python's `s[:n]` and `s[n:]`. */
  function Take(s: Bytes, n: nat): Bytes { s[..if n < |s| then n else |s|] }

  function Drop(s: Bytes, n: nat): Bytes { s[if n < |s| then n else |s|..] }

  lemma {:induction false} TakeDrop(a: Bytes, b: Bytes)
    ensures Take(a + b, |a|) == a && Drop(a + b, |a|) == b
  {
  }

  /** Every stream cipher class is a packet cipher. */
  function PacketOf<C>(k: A.Cipher<C>): PacketCipher {
    PacketCipher(k.ivLength, (iv: Bytes, m: Bytes) => Output(k.encrypt(k.start(iv), m)),
                 (iv: Bytes, m: Bytes) => Output(k.decrypt(k.start(iv), m)))
  }

  function Output<C>(r: Option<(C, Bytes)>): Option<Bytes> {
    match r
    case None => None
    case Some((c, out)) => Some(out)
  }

  lemma {:induction false} PacketOfSound<C(!new)>(k: A.Cipher<C>, live: C -> bool, session: (C, C) -> bool)
    requires A.CipherInverts(k, live, session)
    ensures Sound(PacketOf(k))
  {
    var p, e, d := PacketOf(k), A.Single(k.encrypt), A.CipherDecoder(k, live);
    forall iv: Bytes, m: Bytes | |iv| == k.ivLength && p.seal(iv, m).Some?
      ensures p.open(iv, p.seal(iv, m).value) == Some(m)
    {
      var c := k.start(iv);
      assert k.encrypt(c, m).Some?;
      assert session(c, c) && e.write(c, m).Some?;
      assert Undone(e.write(c, m).value, d, c, session, Same(m));
      FlattenOne(k.encrypt(c, m).value.1);
    }
  }

  // ---- Addresses ------------------------------------------------------------------------------

  datatype Target = Target(host: Bytes, port: nat)

  /** `packstr(host) + port.to_bytes(2, 'big')`, raising when either does not fit. */
  function Named(t: Target): Option<Bytes> {
    if |t.host| > 255 || t.port >= 0x1_0000 then None
    else
      TwoBytes(t.port);
      Some([|t.host|] + t.host + ToBE(t.port, 2))
  }

  /** `socks_address`, with the rest of the buffer. Reads past the end are short, not errors; any
      header but 1 and 3 is read as an IPv6 address. */
  function Address(net: Net, n: byte, s: Bytes): Option<(Target, Bytes)> {
    if n == 1 then
      if |s| < 4 then None else Some(Port(net.ntoa(s[..4]), s[4..]))
    else if n == 3 then
      if s == [] || !net.text(Take(s[1..], s[0])) then None
      else Some(Port(Take(s[1..], s[0]), Drop(s[1..], s[0])))
    else
      if |s| < 16 then None else Some(Port(net.ntop(s[..16]), s[16..]))
  }

  function Port(host: Bytes, s: Bytes): (Target, Bytes) {
    (Target(host, FromBE(Take(s, 2))), Drop(s, 2))
  }

  lemma {:induction false} AddressOfNamed(net: Net, t: Target, data: Bytes)
    requires Named(t).Some? && net.text(t.host)
    ensures Address(net, 3, Named(t).value + data) == Some((t, data))
  {
    hide ToBE, FromBE;
    TwoBytes(t.port);
    var p := ToBE(t.port, 2);
    BERoundTrip(t.port, 2);
    var s := Named(t).value + data;
    assert s[1..] == t.host + (p + data);
    TakeDrop(t.host, p + data);
    TakeDrop(p, data);
  }

  // ---- One protocol ---------------------------------------------------------------------------

  datatype Kind = SS | Socks5

  datatype Accepted = Raises | Refused | Accepted(user: Option<Bytes>, target: Target, payload: Bytes)

  /** The first configured user whose bytes start the datagram. */
  function FirstUser(users: seq<Bytes>, data: Bytes): Option<Bytes> {
    if users == [] then None
    else if users[0] <= data then Some(users[0])
    else FirstUser(users[1..], data)
  }

  function AcceptAddress(net: Net, user: Option<Bytes>, s: Bytes): Accepted {
    if s == [] then Raises
    else if s[0] !in {1, 3, 4} then Refused
    else
      match Address(net, s[0], s[1..])
      case None => Raises
      case Some((t, payload)) => Accepted(user, t, payload)
  }

  function UdpAccept(net: Net, kind: Kind, users: seq<Bytes>, data: Bytes): Accepted {
    match kind
    case SS =>
      if users == [] then AcceptAddress(net, None, data)
      else
        (match FirstUser(users, data)
         case None => Refused
         case Some(u) => AcceptAddress(net, Some(u), Drop(data, |u|)))
    case Socks5 =>
      if Take(data, 3) != [0, 0, 0] then Refused else AcceptAddress(net, None, Drop(data, 3))
  }

  function UdpConnect(kind: Kind, auth: Bytes, t: Target, data: Bytes): Option<Bytes> {
    match Named(t)
    case None => None
    case Some(a) => Some((if kind.SS? then auth else [0, 0, 0]) + [3] + a + data)
  }

  /** An address `inet_aton` accepts is packed in four bytes, any other as a name; a Socks5 hop adds
      nothing to replies. */
  function UdpPack(net: Net, kind: Kind, t: Target, data: Bytes): Option<Bytes> {
    if kind.Socks5? then Some(data)
    else if net.aton(t.host).Some? && t.port < 0x1_0000 then
      TwoBytes(t.port);
      Some([1] + net.aton(t.host).value + ToBE(t.port, 2) + data)
    else
      match Named(t)
      case None => None
      case Some(a) => Some([3] + a + data)
  }

  function UdpUnpack(net: Net, kind: Kind, data: Bytes): Option<Bytes> {
    if kind.Socks5? then Some(data)
    else if data == [] then None
    else
      match Address(net, data[0], data[1..])
      case None => None
      case Some((t, rest)) => Some(rest)
  }

  lemma {:induction false} UnpackNumeric(net: Net, a: Bytes, p: Bytes, data: Bytes)
    requires |a| == 4 && |p| == 2
    ensures UdpUnpack(net, SS, [1] + a + p + data) == Some(data)
  {
    hide FromBE;
    var s := a + p + data;
    assert ([1] + a + p + data)[1..] == s;
    assert s[..4] == a && s[4..] == p + data;
    TakeDrop(p, data);
  }

  lemma {:induction false} UnpackPacked(net: Net, kind: Kind, t: Target, data: Bytes)
    requires Sane(net) && net.text(t.host) && UdpPack(net, kind, t, data).Some?
    ensures UdpUnpack(net, kind, UdpPack(net, kind, t, data).value) == Some(data)
  {
    hide ToBE, FromBE, Named, Address;
    if kind.SS? {
      if net.aton(t.host).Some? && t.port < 0x1_0000 {
        TwoBytes(t.port);
        UnpackNumeric(net, net.aton(t.host).value, ToBE(t.port, 2), data);
      } else {
        AddressOfNamed(net, t, data);
        assert ([3] + Named(t).value + data)[1..] == Named(t).value + data;
      }
    }
  }

  // ---- What an address reads as ----------------------------------------------------------------

  /** The four-byte form of IPv4, the counted form of names and, for any other header, the sixteen-byte form
      of IPv6, each with a big-endian port behind it. */
  lemma {:induction false} AddressReads(net: Net, n: byte, h: Bytes, hi: byte, lo: byte, data: Bytes)
    ensures |h| == 4 ==>
              Address(net, 1, h + [hi, lo] + data) == Some((Target(net.ntoa(h), 256 * (hi as int) + lo), data))
    ensures |h| < 256 && net.text(h) ==>
              Address(net, 3, [|h|] + h + [hi, lo] + data) == Some((Target(h, 256 * (hi as int) + lo), data))
    ensures n !in {1, 3} && |h| == 16 ==>
              Address(net, n, h + [hi, lo] + data) == Some((Target(net.ntop(h), 256 * (hi as int) + lo), data))
  {
    var p := [hi, lo];
    var s := h + p + data;
    BEValue(p);
    hide FromBE;
    assert s[..|h|] == h && s[|h|..] == p + data;
    TakeDrop(p, data);
    if |h| < 256 {
      var named := [|h|] + h + p + data;
      assert named[1..] == h + (p + data);
      TakeDrop(h, p + data);
    }
  }

  /** What raises instead: too few bytes for the fixed forms, no length or a name that is no text; a missing
      port does not. */
  lemma {:induction false} AddressRaises(net: Net, n: byte, s: Bytes)
    ensures Address(net, n, s) == None <==>
            if n == 1 then |s| < 4
            else if n == 3 then s == [] || !net.text(if |s| <= s[0] then s[1..] else s[1..1 + s[0]])
            else |s| < 16
  {
    hide FromBE;
    if n == 3 && s != [] {
      if |s| > s[0] {
        assert s[1..][..s[0]] == s[1..1 + s[0]];
      } else {
        assert s[1..][..|s| - 1] == s[1..];
      }
    }
  }

  /** A datagram with an address of any form is accepted for that address with the payload behind it. */
  lemma {:induction false} AcceptsForms(
    net: Net, kind: Kind, auth: Bytes, users: seq<Bytes>, n: byte, a: Bytes, t: Target, data: Bytes)
    requires n in {1, 3, 4} && Address(net, n, a + data) == Some((t, data)) && Known(auth, users)
    ensures kind.SS? ==>
              UdpAccept(net, SS, users, auth + [n] + a + data) ==
              Accepted(if users == [] then None else Some(auth), t, data)
    ensures kind.Socks5? ==> UdpAccept(net, Socks5, users, [0, 0, 0, n] + a + data) == Accepted(None, t, data)
  {
    hide Address;
    var tail := [n] + a + data;
    assert tail[0] == n && tail[1..] == a + data;
    if kind.SS? {
      assert auth + [n] + a + data == auth + tail;
      TakeDrop(auth, tail);
      if users == [] { assert auth + tail == tail; } else { FirstIsKnown(auth, users, tail); }
    } else {
      assert [0, 0, 0, n] + a + data == [0, 0, 0] + tail;
      TakeDrop([0, 0, 0], tail);
    }
  }

  /** Refused, without an exception, are: no matching user, a wrong Socks5 prefix, an unknown header. */
  lemma {:induction false} RefusedExactly(net: Net, kind: Kind, users: seq<Bytes>, data: Bytes, skip: nat)
    requires match kind
             case Socks5 => skip == 3
             case SS =>
               if users == [] then skip == 0
               else (forall i | 0 <= i < |users| :: !(users[i] <= data)) ||
                    (exists i | 0 <= i < |users| ::
                       users[i] <= data && skip == |users[i]| && forall j | 0 <= j < i :: !(users[j] <= data))
    ensures UdpAccept(net, kind, users, data).Refused? <==>
            || (kind.Socks5? && !([0, 0, 0] <= data))
            || (kind.SS? && users != [] && forall i | 0 <= i < |users| :: !(users[i] <= data))
            || (skip < |data| && data[skip] !in {1, 3, 4})
  {
    hide Address;
    if kind.SS? && users != [] {
      if i :| 0 <= i < |users| && users[i] <= data && skip == |users[i]|
              && forall j | 0 <= j < i :: !(users[j] <= data)
      {
        FirstAt(users, data, i);
      } else {
        FirstNone(users, data);
      }
    }
  }

  lemma {:induction false} FirstAt(users: seq<Bytes>, data: Bytes, i: nat)
    requires i < |users| && users[i] <= data && forall j | 0 <= j < i :: !(users[j] <= data)
    ensures FirstUser(users, data) == Some(users[i])
    decreases i
  {
    if i > 0 {
      forall j | 0 <= j < i - 1 ensures !(users[1..][j] <= data) { assert users[1..][j] == users[j + 1]; }
      FirstAt(users[1..], data, i - 1);
    }
  }

  lemma {:induction false} FirstNone(users: seq<Bytes>, data: Bytes)
    requires forall j | 0 <= j < |users| :: !(users[j] <= data)
    ensures FirstUser(users, data) == None
    decreases |users|
  {
    if users != [] {
      forall j | 0 <= j < |users| - 1 ensures !(users[1..][j] <= data) { assert users[1..][j] == users[j + 1]; }
      FirstNone(users[1..], data);
    }
  }

  /** A packed reply carries the address it was packed for: four bytes where the socket library takes the
      host for an IPv4 address, else the name. */
  lemma {:induction false} PackedReads(net: Net, t: Target, data: Bytes)
    requires Sane(net) && net.text(t.host) && UdpPack(net, SS, t, data).Some?
    ensures var p := UdpPack(net, SS, t, data).value;
            && p != [] && p[0] == (if net.aton(t.host).Some? && t.port < 0x1_0000 then 1 else 3)
            && Address(net, p[0], p[1..]) ==
               Some((if p[0] == 1 then Target(net.ntoa(net.aton(t.host).value), t.port) else t, data))
  {
    hide ToBE, FromBE, Named, Address;
    var p := UdpPack(net, SS, t, data).value;
    if net.aton(t.host).Some? && t.port < 0x1_0000 {
      TwoBytes(t.port);
      var a, b := net.aton(t.host).value, ToBE(t.port, 2);
      BERoundTrip(t.port, 2);
      assert p[1..] == a + [b[0], b[1]] + data;
      AddressReads(net, 1, a, b[0], b[1], data);
      AddressReads(net, 3, [], b[0], b[1], data);
      BEValue(b);
    } else {
      AddressOfNamed(net, t, data);
      assert p[1..] == Named(t).value + data;
    }
  }

  lemma {:induction false} BEValue(b: Bytes)
    requires |b| == 2
    ensures FromBE(b) == 256 * (b[0] as int) + b[1]
  {
    assert b[..1] == [b[0]] && b[..1][..0] == [] && FromBE(b[..1]) == b[0];
  }

  // ---- Users ----------------------------------------------------------------------------------

  predicate Apart(u: Bytes, v: Bytes) {
    u == v || !(u <= v || v <= u)
  }

  /** The client's credential is one of the server's users, and no other is a prefix of it or it of
      another; without users there is no credential. */
  predicate Known(auth: Bytes, users: seq<Bytes>) {
    if users == [] then auth == []
    else auth in users && forall u | u in users :: Apart(auth, u)
  }

  lemma {:induction false} FirstIsKnown(auth: Bytes, users: seq<Bytes>, data: Bytes)
    requires auth in users && forall u | u in users :: Apart(auth, u)
    ensures FirstUser(users, auth + data) == Some(auth)
    decreases |users|
  {
    if users[0] <= auth + data {
      assert auth <= auth + data && Apart(auth, users[0]);
      PrefixesNest(users[0], auth, auth + data);
      assert users[0] == auth;
    } else {
      assert users[0] != auth;
      FirstIsKnown(auth, users[1..], data);
    }
  }

  lemma {:induction false} PrefixesNest(u: Bytes, v: Bytes, s: Bytes)
    requires u <= s && v <= s
    ensures u <= v || v <= u
  {
    if |u| <= |v| { assert v[..|u|] == s[..|u|]; } else { assert u[..|v|] == s[..|v|]; }
  }

  // ---- The chain ------------------------------------------------------------------------------

  datatype Hop = Hop(kind: Kind, address: Target, auth: Bytes, users: seq<Bytes>, cipher: Option<PacketCipher>)

  ghost predicate Fitting(net: Net, hop: Hop, iv: Bytes) {
    && (hop.kind.SS? ==> Known(hop.auth, hop.users))
    && net.text(hop.address.host)
    && (hop.cipher.Some? ==> Sound(hop.cipher.value) && |iv| == hop.cipher.value.ivLength)
  }

  ghost predicate AllFitting(net: Net, hops: seq<Hop>, ivs: seq<Bytes>) {
    |hops| == |ivs| && forall i | 0 <= i < |hops| :: Fitting(net, hops[i], ivs[i])
  }

  function Wrap(hop: Hop, iv: Bytes, data: Bytes): Option<Bytes> {
    if hop.cipher.Some? then Encrypt(hop.cipher.value, iv, data) else Some(data)
  }

  function Unwrap(hop: Hop, data: Bytes): Option<Bytes> {
    if hop.cipher.Some? then Decrypt(hop.cipher.value, data) else Some(data)
  }

  lemma {:induction false} UnwrapWrapped(net: Net, hop: Hop, iv: Bytes, data: Bytes)
    requires Fitting(net, hop, iv) && Wrap(hop, iv, data).Some?
    ensures Unwrap(hop, Wrap(hop, iv, data).value) == Some(data)
  {
    if hop.cipher.Some? { TakeDrop(iv, hop.cipher.value.seal(iv, data).value); }
  }

  /** `destination` of a chain: its first hop, or the target itself when the chain is direct. */
  function Destination(hops: seq<Hop>, t: Target): Target {
    if hops == [] then t else hops[0].address
  }

  /** `udp_prepare_connection`, innermost hop first; `ivs` are the vectors drawn. */
  function Prepare(hops: seq<Hop>, ivs: seq<Bytes>, t: Target, data: Bytes): Option<Bytes>
    requires |hops| == |ivs|
    decreases |hops|
  {
    if hops == [] then Some(data)
    else
      match Prepare(hops[1..], ivs[1..], t, data)
      case None => None
      case Some(inner) =>
        match UdpConnect(hops[0].kind, hops[0].auth, Destination(hops[1..], t), inner)
        case None => None
        case Some(framed) => Wrap(hops[0], ivs[0], framed)
  }

  /** The server of a hop: decrypt, then `udp_accept`. */
  function Receive(net: Net, hop: Hop, packet: Bytes): Accepted {
    match Unwrap(hop, packet)
    case None => Raises
    case Some(data) => UdpAccept(net, hop.kind, hop.users, data)
  }

  /** Where each hop sends what it unwrapped, and what the last one sends. */
  function Route(net: Net, hops: seq<Hop>, packet: Bytes): Option<(seq<Target>, Bytes)>
    decreases |hops|
  {
    if hops == [] then Some(([], packet))
    else
      match Receive(net, hops[0], packet)
      case Raises => None
      case Refused => None
      case Accepted(user, t, payload) =>
        match Route(net, hops[1..], payload)
        case None => None
        case Some((rest, final)) => Some(([t] + rest, final))
  }

  function Targets(hops: seq<Hop>, t: Target): seq<Target> {
    if hops == [] then [] else [Destination(hops[1..], t)] + Targets(hops[1..], t)
  }

  lemma {:induction false} ReceivesPrepared(net: Net, hop: Hop, iv: Bytes, t: Target, inner: Bytes, packet: Bytes)
    requires Fitting(net, hop, iv) && net.text(t.host) && UdpConnect(hop.kind, hop.auth, t, inner).Some?
    requires Wrap(hop, iv, UdpConnect(hop.kind, hop.auth, t, inner).value) == Some(packet)
    ensures Receive(net, hop, packet) ==
            Accepted(if hop.kind.SS? && hop.users != [] then Some(hop.auth) else None, t, inner)
  {
    hide Address, Named, Wrap, Unwrap;
    var a := Named(t).value;
    var head := if hop.kind.SS? then hop.auth else [0, 0, 0];
    var tail := [3] + a + inner;
    var framed := UdpConnect(hop.kind, hop.auth, t, inner).value;
    assert framed == head + tail;
    UnwrapWrapped(net, hop, iv, framed);
    AddressOfNamed(net, t, inner);
    assert tail[0] == 3 && tail[1..] == a + inner;
    TakeDrop(head, tail);
    if hop.kind.SS? {
      if hop.users == [] {
        assert head + tail == tail;
      } else {
        FirstIsKnown(hop.auth, hop.users, tail);
      }
    }
  }

  lemma {:induction false} FittingTail(net: Net, hops: seq<Hop>, ivs: seq<Bytes>)
    requires hops != [] && AllFitting(net, hops, ivs)
    ensures Fitting(net, hops[0], ivs[0]) && AllFitting(net, hops[1..], ivs[1..])
  {
    forall i | 0 <= i < |hops| - 1
      ensures Fitting(net, hops[1..][i], ivs[1..][i])
    {
      assert Fitting(net, hops[i + 1], ivs[i + 1]);
    }
  }

  /** Peeling a prepared packet hop by hop tells each hop the next one's address, the last hop the
      target, and delivers the payload. */
  lemma {:induction false} OnionPeels(net: Net, hops: seq<Hop>, ivs: seq<Bytes>, t: Target, data: Bytes)
    requires AllFitting(net, hops, ivs) && net.text(t.host)
    requires Prepare(hops, ivs, t, data).Some?
    ensures Route(net, hops, Prepare(hops, ivs, t, data).value) == Some((Targets(hops, t), data))
    decreases |hops|
  {
    if hops != [] {
      hide Fitting, Receive, UdpConnect, Wrap;
      FittingTail(net, hops, ivs);
      OnionPeels(net, hops[1..], ivs[1..], t, data);
      var inner := Prepare(hops[1..], ivs[1..], t, data).value;
      var next := Destination(hops[1..], t);
      assert net.text(next.host) by { NextIsText(net, hops[1..], ivs[1..], t); }
      ReceivesPrepared(net, hops[0], ivs[0], next, inner, Prepare(hops, ivs, t, data).value);
    }
  }

  lemma {:induction false} NextIsText(net: Net, hops: seq<Hop>, ivs: seq<Bytes>, t: Target)
    requires AllFitting(net, hops, ivs) && net.text(t.host)
    ensures net.text(Destination(hops, t).host)
  {
    if hops != [] { assert Fitting(net, hops[0], ivs[0]); }
  }

  /** Hop i is told the address of hop i + 1, the last one the target. */
  lemma {:induction false} TargetsAre(hops: seq<Hop>, t: Target, i: nat)
    requires i < |hops|
    ensures |Targets(hops, t)| == |hops|
    ensures Targets(hops, t)[i] == if i + 1 < |hops| then hops[i + 1].address else t
    decreases |hops|
  {
    if i > 0 {
      TargetsAre(hops[1..], t, i - 1);
    } else if |hops| > 1 {
      TargetsAre(hops[1..], t, 0);
    }
  }

  /** What hop 0 is sent: the vector, then under it the credential or three zero bytes, a 3, the counted name
      of the next hop, its big-endian port and what that hop is to be sent. */
  lemma {:induction false} PreparedLayout(hops: seq<Hop>, ivs: seq<Bytes>, t: Target, data: Bytes)
    requires |hops| == |ivs| > 0 && Prepare(hops, ivs, t, data).Some?
    ensures Prepare(hops[1..], ivs[1..], t, data).Some?
    ensures var next := if |hops| > 1 then hops[1].address else t;
            && |next.host| < 256 && next.port < 0x1_0000
            && var plain := (if hops[0].kind.SS? then hops[0].auth else [0, 0, 0]) + [3, |next.host|] + next.host
                            + [next.port / 256, next.port % 256] + Prepare(hops[1..], ivs[1..], t, data).value;
               var packet := Prepare(hops, ivs, t, data).value;
               match hops[0].cipher
               case None => packet == plain
               case Some(c) => ivs[0] <= packet && c.seal(ivs[0], plain) == Some(packet[|ivs[0]|..])
  {
    hide ToBE;
    var next := if |hops| > 1 then hops[1].address else t;
    TwoBytes(next.port);
    var inner := Prepare(hops[1..], ivs[1..], t, data).value;
    var head := if hops[0].kind.SS? then hops[0].auth else [0, 0, 0];
    var plain := head + [3, |next.host|] + next.host + [next.port / 256, next.port % 256] + inner;
    assert UdpConnect(hops[0].kind, hops[0].auth, next, inner) == Some(plain) by {
      assert head + [3] + ([|next.host|] + next.host + ToBE(next.port, 2)) + inner == plain;
    }
  }

  ghost predicate Encodable(t: Target) { |t.host| <= 255 && t.port < 0x1_0000 }

  ghost predicate Total(hops: seq<Hop>) {
    forall i, iv, m | 0 <= i < |hops| && hops[i].cipher.Some? :: hops[i].cipher.value.seal(iv, m).Some?
  }

  lemma {:induction false} WrapsAll(hops: seq<Hop>, iv: Bytes, data: Bytes)
    requires hops != [] && Total(hops)
    ensures Wrap(hops[0], iv, data).Some? && Total(hops[1..])
  {
    forall i, iv, m | 0 <= i < |hops[1..]| && hops[1..][i].cipher.Some?
      ensures hops[1..][i].cipher.value.seal(iv, m).Some?
    {
      assert hops[1..][i] == hops[i + 1];
    }
  }

  lemma {:induction false} ConnectsWhenEncodable(kind: Kind, auth: Bytes, t: Target, data: Bytes)
    ensures UdpConnect(kind, auth, t, data).Some? <==> Encodable(t)
  {
  }

  /** With ciphers that accept every text, preparing fails exactly when some name or port does not fit
      its field. */
  lemma {:induction false} PreparesWhenEncodable(hops: seq<Hop>, ivs: seq<Bytes>, t: Target, data: Bytes)
    requires |hops| == |ivs|
    requires Total(hops)
    ensures Prepare(hops, ivs, t, data).Some? <==> forall n | n in Targets(hops, t) :: Encodable(n)
    decreases |hops|
  {
    if hops != [] {
      hide Total, Wrap, UdpConnect, Encodable;
      WrapsAll(hops, ivs[0], data);
      PreparesWhenEncodable(hops[1..], ivs[1..], t, data);
      var next, rest := Destination(hops[1..], t), Targets(hops[1..], t);
      assert forall n :: n in Targets(hops, t) <==> n == next || n in rest;
      if Prepare(hops[1..], ivs[1..], t, data).Some? {
        var inner := Prepare(hops[1..], ivs[1..], t, data).value;
        ConnectsWhenEncodable(hops[0].kind, hops[0].auth, next, inner);
        if UdpConnect(hops[0].kind, hops[0].auth, next, inner).Some? {
          WrapsAll(hops, ivs[0], UdpConnect(hops[0].kind, hops[0].auth, next, inner).value);
        }
      }
    }
  }

  // ---- Replies --------------------------------------------------------------------------------

  /** A reply from the target on its way back: each server packs what it received for the address it
      had been asked for, and encrypts it. */
  function Reply(net: Net, hops: seq<Hop>, ivs: seq<Bytes>, t: Target, data: Bytes): Option<Bytes>
    requires |hops| == |ivs|
    decreases |hops|
  {
    if hops == [] then Some(data)
    else
      match Reply(net, hops[1..], ivs[1..], t, data)
      case None => None
      case Some(inner) =>
        match UdpPack(net, hops[0].kind, Destination(hops[1..], t), inner)
        case None => None
        case Some(packed) => Wrap(hops[0], ivs[0], packed)
  }

  /** `udp_packet_unpack`. */
  function PacketUnpack(net: Net, hops: seq<Hop>, data: Bytes): Option<Bytes>
    decreases |hops|
  {
    if hops == [] then Some(data)
    else
      match Unwrap(hops[0], data)
      case None => None
      case Some(packed) =>
        match UdpUnpack(net, hops[0].kind, packed)
        case None => None
        case Some(inner) => PacketUnpack(net, hops[1..], inner)
  }

  /** The client gets back exactly what the target answered. */
  lemma {:induction false} ReplyUnpacks(net: Net, hops: seq<Hop>, ivs: seq<Bytes>, t: Target, data: Bytes)
    requires Sane(net) && AllFitting(net, hops, ivs) && net.text(t.host)
    requires Reply(net, hops, ivs, t, data).Some?
    ensures PacketUnpack(net, hops, Reply(net, hops, ivs, t, data).value) == Some(data)
    decreases |hops|
  {
    if hops != [] {
      hide Fitting, UdpPack, UdpUnpack, Wrap, Unwrap, Sane;
      FittingTail(net, hops, ivs);
      ReplyUnpacks(net, hops[1..], ivs[1..], t, data);
      var inner := Reply(net, hops[1..], ivs[1..], t, data).value;
      var next := Destination(hops[1..], t);
      NextIsText(net, hops[1..], ivs[1..], t);
      UnpackPacked(net, hops[0].kind, next, inner);
      UnwrapWrapped(net, hops[0], ivs[0], UdpPack(net, hops[0].kind, next, inner).value);
    }
  }

  // ---- The cursor -----------------------------------------------------------------------------

  /** `io.BytesIO` as the parsers use it. */
  class Cursor {
    const data: Bytes
    var pos: nat

    ghost predicate Valid()
      reads this
    {
      pos <= |data|
    }

    ghost function Rest(): Bytes
      requires Valid()
      reads this
    {
      data[pos..]
    }

    constructor (bytes: Bytes)
      ensures Valid() && Rest() == bytes && data == bytes
    {
      data, pos := bytes, 0;
    }

    method Read(n: nat) returns (r: Bytes)
      requires Valid()
      modifies this`pos
      ensures Valid() && r == Take(old(Rest()), n) && Rest() == Drop(old(Rest()), n)
    {
      var end := if pos + n < |data| then pos + n else |data|;
      r := data[pos..end];
      pos := end;
    }

    method SocksAddress(net: Net, n: byte) returns (t: Option<Target>)
      requires Valid()
      modifies this`pos
      ensures Valid()
      ensures match Address(net, n, old(Rest()))
              case None => t == None
              case Some((want, rest)) => t == Some(want) && Rest() == rest
    {
      hide FromBE;
      ghost var s := Rest();
      var host: Bytes;
      if n == 1 {
        var b := Read(4);
        if |b| != 4 {
          return None;
        }
        host := net.ntoa(b);
      } else if n == 3 {
        var l := Read(1);
        if l == [] {
          return None;
        }
        host := Read(l[0]);
        if !net.text(host) {
          return None;
        }
      } else {
        var b := Read(16);
        if |b| != 16 {
          return None;
        }
        host := net.ntop(b);
      }
      assert Address(net, n, s) == Some(Port(host, Rest()));
      hide Address;
      var p := Read(2);
      t := Some(Target(host, FromBE(p)));
    }
  }

  method ParseAddress(net: Net, reader: Cursor, user: Option<Bytes>) returns (r: Accepted)
    requires reader.Valid()
    modifies reader`pos
    ensures r == AcceptAddress(net, user, old(reader.Rest()))
  {
    hide Address;
    var n := reader.Read(1);
    if n == [] {
      return Raises;
    }
    if n[0] !in {1, 3, 4} {
      return Refused;
    }
    var t := reader.SocksAddress(net, n[0]);
    r := if t.None? then Raises else Accepted(user, t.value, reader.data[reader.pos..]);
  }

  method AcceptDatagram(net: Net, kind: Kind, users: seq<Bytes>, data: Bytes) returns (r: Accepted)
    ensures r == UdpAccept(net, kind, users, data)
  {
    hide AcceptAddress;
    var reader := new Cursor(data);
    var user: Option<Bytes> := None;
    if kind.Socks5? {
      var magic := reader.Read(3);
      if magic != [0, 0, 0] {
        return Refused;
      }
    } else if users != [] {
      user := PickUser(users, data);
      if user.None? {
        return Refused;
      }
      var skipped := reader.Read(|user.value|);
    }
    r := ParseAddress(net, reader, user);
  }

  method PickUser(users: seq<Bytes>, data: Bytes) returns (u: Option<Bytes>)
    ensures u == FirstUser(users, data)
  {
    for i := 0 to |users|
      invariant FirstUser(users, data) == FirstUser(users[i..], data)
    {
      if users[i] <= data {
        return Some(users[i]);
      }
      assert users[i..][1..] == users[i + 1..];
    }
    u := None;
  }

  method UnpackDatagram(net: Net, data: Bytes) returns (r: Option<Bytes>)
    ensures r == UdpUnpack(net, SS, data)
  {
    hide Address;
    var reader := new Cursor(data);
    var n := reader.Read(1);
    if n == [] {
      return None;
    }
    var t := reader.SocksAddress(net, n[0]);
    if t.None? {
      return None;
    }
    r := Some(reader.data[reader.pos..]);
  }
}
