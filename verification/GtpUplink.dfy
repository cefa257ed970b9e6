/**
  * The uplink path of the user plane function: an Ethernet frame that carries a GTP-U packet
  * (3GPP TS 29.281) is matched against the rules and leaves as a plain Ethernet frame.
  */
module GtpUplink {
  import opened Common
  import opened Arith

  newtype Byte = x: int | 0 <= x < 256

  type Bytes = seq<Byte>

  const ETH_LEN := 14
  const UDP_LEN := 8
  const GTP_LEN := 12
  const GTP_PORT := 2152
  const PFCP_PORT := 8805
  const ETH_P_ARP := 0x0806
  const ETH_P_IP := 0x0800
  const NO_MORE_EXTENSIONS: Byte := 0
  const PDU_SESSION_CONTAINER: Byte := 0x85
  const ACTION_MASK := 8          // DROP, FORW and BUFF are the three low bits
  const ACTION_FORW := 2
  const READABLE := 128           // the headers are read without looking at the packet length

  /** Big-endian numbers. */
  function Be16(b: Bytes, i: nat): nat
    requires i + 2 <= |b|
  {
    b[i] as int * 256 + b[i+1] as int
  }

  function Be32(b: Bytes, i: nat): nat
    requires i + 4 <= |b|
  {
    Be16(b, i) * 0x1_0000 + Be16(b, i + 2)
  }

  /** The four bytes of a number, most significant first. */
  function Encoded32(n: nat): (b: Bytes)
    requires n < TWO_32
    ensures |b| == 4
  {
    [(n / 0x100_0000) as Byte, (n / 0x1_0000 % 256) as Byte, (n / 256 % 256) as Byte, (n % 256) as Byte]
  }

  /** Reading back a number from where it was written. */
  lemma Decoded(b: Bytes, i: nat, n: nat)
    requires n < TWO_32 && i + 4 <= |b| && b[i..i+4] == Encoded32(n)
    ensures Be32(b, i) == n
  {
    var w := b[i..i+4];
    assert w[0] == b[i] && w[1] == b[i+1] && w[2] == b[i+2] && w[3] == b[i+3];
    DivByParts(n);
  }

  lemma DivByParts(n: nat)
    ensures n / 0x1_0000 == n / 0x100_0000 * 256 + n / 0x1_0000 % 256
    ensures n % 0x1_0000 == n / 256 % 256 * 256 + n % 256
    ensures n == n / 0x1_0000 * 0x1_0000 + n % 0x1_0000
  {
  }

  /** Different bytes make different numbers. */
  lemma Be32Injective(a: Bytes, b: Bytes)
    requires |a| == |b| == 4
    ensures Be32(a, 0) == Be32(b, 0) <==> a == b
  {
    if Be32(a, 0) == Be32(b, 0) {
      DivModUnique(Be32(a, 0), 0x1_0000, Be16(a, 0), Be16(a, 2));
      DivModUnique(Be32(b, 0), 0x1_0000, Be16(b, 0), Be16(b, 2));
      Be16Injective(a, b, 0);
      Be16Injective(a, b, 2);
      assert forall i :: 0 <= i < 4 ==> a[i] == b[i];
    }
  }

  lemma Be16Injective(a: Bytes, b: Bytes, i: nat)
    requires i + 2 <= |a| && i + 2 <= |b| && Be16(a, i) == Be16(b, i)
    ensures a[i] == b[i] && a[i+1] == b[i+1]
  {
    DivModUnique(Be16(a, i), 256, a[i] as int, a[i+1] as int);
    DivModUnique(Be16(b, i), 256, b[i] as int, b[i+1] as int);
  }

  // ----- classification of the outer headers

  datatype Kind = Arp | OtherL2 | OtherL4 | Tcp | Udp | Gtp | Pfcp

  datatype Outer = Outer(kind: Kind, l3Len: nat, l4Len: nat)

  /** `get_packet_type`: the IPv4 header length is taken from the header, options included. */
  function PacketType(b: Bytes): (o: Outer)
    requires |b| >= READABLE
    ensures o.l3Len <= 60 && (o.kind == Gtp ==> o.l4Len == UDP_LEN)
  {
    var proto := Be16(b, 12);
    if proto == ETH_P_ARP then Outer(Arp, 0, 0)
    else if proto != ETH_P_IP then Outer(OtherL2, 0, 0)
    else
      var l3Len := b[ETH_LEN] as int % 16 * 4;
      var l4 := b[ETH_LEN + 9];
      if l4 == 17 then
        var port := Be16(b, ETH_LEN + l3Len + 2);
        Outer(if port == GTP_PORT then Gtp else if port == PFCP_PORT then Pfcp else Udp, l3Len, UDP_LEN)
      else if l4 == 6 then Outer(Tcp, l3Len, 0)
      else Outer(OtherL4, l3Len, 0)
  }

  // ----- the GTP-U header

  /** Length of the header as parsed, and where the PDU session container is, if there is one. */
  datatype GtpHeader = GtpHeader(len: nat, container: Option<nat>)

  /** What `parse_gtphdr` makes of the bytes from the GTP header on. */
  function GtpHeaderOf(g: Bytes): (h: Option<GtpHeader>)
    requires |g| >= GTP_LEN + 8
    ensures h.Some? ==> h.value.len in {GTP_LEN, GTP_LEN + 4, GTP_LEN + 8}
    ensures h.Some? && h.value.container.Some? ==> h.value.container.value == GTP_LEN
  {
    if g[11] == NO_MORE_EXTENSIONS then Some(GtpHeader(GTP_LEN, None))
    else if g[11] != PDU_SESSION_CONTAINER then None
    else
      var pduType := g[GTP_LEN + 1] / 16;
      if pduType == 0 then Some(GtpHeader(GTP_LEN + 8, Some(GTP_LEN)))
      else if pduType == 1 then Some(GtpHeader(GTP_LEN + 4, Some(GTP_LEN)))
      else None
  }

  /** `parse_gtphdr`: follow at most one extension header. */
  method ParseGtp(g: Bytes) returns (h: Option<GtpHeader>)
    requires |g| >= GTP_LEN + 8
    ensures h == GtpHeaderOf(g)
  {
    var len: nat, data: nat := GTP_LEN, GTP_LEN;
    var parsed := 0;
    var container: Option<nat> := None;
    var extension := g[11];
    while extension != NO_MORE_EXTENSIONS && parsed < 1
      invariant parsed <= 1
      invariant parsed == 0 ==> data == len == GTP_LEN && container == None && extension == g[11]
      invariant parsed == 1 ==> GtpHeaderOf(g) == Some(GtpHeader(len, container)) && g[11] != NO_MORE_EXTENSIONS
      decreases 1 - parsed
    {
      parsed := parsed + 1;
      if extension != PDU_SESSION_CONTAINER {
        return None;
      }
      var pduType := g[data + 1] / 16;
      if pduType == 0 {
        container := Some(data);
        extension := g[data + 3];
        data := data + 8;
        len := len + 8;
      } else if pduType == 1 {
        container := Some(data);
        extension := g[data + 3];
        data := data + 4;
        len := len + 4;
      } else {
        return None;
      }
    }
    return Some(GtpHeader(len, container));
  }

  // ----- rules

  datatype Key = Key(srcIface: nat, ueIp: nat, teid: nat, qfi: nat)
  datatype Pdr = Pdr(pdrMask: nat, applyAction: nat) {
    /** Forward, and nothing else, with outer header removal. */
    predicate Decapsulates() { applyAction % ACTION_MASK == ACTION_FORW && pdrMask % 2 == 1 }
  }
  datatype Macs = Macs(dnn: Bytes, upfDnn: Bytes) {
    predicate Valid() { |dnn| == 6 && |upfDnn| == 6 }
  }

  function EthHeader(m: Macs): (h: Bytes)
    requires m.Valid()
    ensures |h| == ETH_LEN
  {
    m.dnn + m.upfDnn + [8, 0]
  }

  /** Destination, source and type of the new header. */
  lemma EthHeaderIs(m: Macs)
    requires m.Valid()
    ensures EthHeader(m)[..6] == m.dnn && EthHeader(m)[6..12] == m.upfDnn && EthHeader(m)[12..] == [8, 0]
  {
  }

  /** The key of a packet, from the bytes of its GTP header on. */
  function KeyOf(g: Bytes, h: GtpHeader): Key
    requires h.len + 16 <= |g| && h.len >= GTP_LEN
    requires h.container.Some? ==> h.container.value == GTP_LEN && h.len >= GTP_LEN + 4
  {
    Key(0, Be32(g, h.len + 12), Be32(g, 4), if h.container.Some? then g[h.container.value + 2] as int % 64 else 0)
  }

  /** DOWNLINK stands for the path of plain UDP packets, which is not modelled. */
  datatype Verdict = Drop | ToLport(lport: int) | Downlink

  function Peer(lport: nat): nat { if lport % 2 == 0 then lport + 1 else lport - 1 }

  datatype Outcome = Outcome(verdict: Verdict, packet: Bytes)

  /** Leave the packet as it is, or take `cut` bytes off its front and renew the Ethernet header. */
  datatype Decision = Leave(verdict: Verdict) | Strip(cut: nat)

  /** What the headers and the rules say about a packet. */
  function Decide(b: Bytes, recv: nat, rules: map<Key, Pdr>): (d: Decision)
    requires |b| >= READABLE
    ensures d.Strip? ==> d.cut + ETH_LEN <= READABLE
  {
    var o := PacketType(b);
    if o.kind == Udp then Leave(Downlink)
    else if o.kind != Gtp then Leave(Drop)
    else
      var g := b[ETH_LEN + o.l3Len + o.l4Len..];
      match GtpHeaderOf(g)
      case None => Leave(Drop)
      case Some(h) =>
        var key := KeyOf(g, h);
        if key !in rules then Leave(Drop)
        else if !rules[key].Decapsulates() then Leave(ToLport(Peer(recv)))
        else Strip(o.l3Len + o.l4Len + h.len)
  }

  /** What becomes of a packet: `b` is what can be read, of which the first `len` bytes are the packet. */
  function Process(b: Bytes, len: nat, recv: nat, rules: map<Key, Pdr>, macs: Macs): Outcome
    requires |b| >= READABLE && len <= |b| && macs.Valid()
  {
    match Decide(b, recv, rules)
    case Leave(verdict) => Outcome(verdict, b[..len])
    case Strip(cut) =>
      if cut > len then Outcome(Drop, b[..len])
      else Outcome(ToLport(Peer(recv)), Overwrite(b[cut..len], EthHeader(macs)))
  }

  /** The bytes with the first ones replaced; a shorter packet only gets what it has room for. */
  function Overwrite(p: Bytes, h: Bytes): (r: Bytes)
    ensures |r| == |p|
  {
    if |h| <= |p| then h + p[|h|..] else h[..|p|]
  }

  lemma OverwriteIs(p: Bytes, h: Bytes, r: Bytes)
    requires |r| == |p|
    requires forall i :: 0 <= i < |h| && i < |r| ==> r[i] == h[i]
    requires forall i :: |h| <= i < |r| ==> r[i] == p[i]
    ensures r == Overwrite(p, h)
  {
  }

  /** A packet buffer: the packet is `buf[off..off + len]`. */
  class Mbuf {
    var buf: array<Byte>
    var off: nat
    var len: nat

    ghost predicate Valid()
      reads this
    {
      off + len <= buf.Length && off + READABLE <= buf.Length
    }

    /** `AdjustOffset`: take bytes off the front. */
    method Adjust(n: nat) returns (ok: bool)
      requires Valid()
      modifies this`off, this`len
      ensures ok <==> n <= old(len)
      ensures ok ==> off == old(off) + n && len == old(len) - n
      ensures !ok ==> off == old(off) && len == old(len)
    {
      ok := n <= len;
      if ok {
        off, len := off + n, len - n;
      }
    }

    /** Byte by byte, as the addresses of the new Ethernet header are stored. */
    method Store(h: Bytes)
      requires off + |h| <= buf.Length
      modifies buf
      ensures forall i :: 0 <= i < |h| ==> buf[off + i] == h[i]
      ensures forall i :: 0 <= i < buf.Length && !(off <= i < off + |h|) ==> buf[i] == old(buf[i])
    {
      for i := 0 to |h|
        invariant forall j :: 0 <= j < i ==> buf[off + j] == h[j]
        invariant forall j :: 0 <= j < buf.Length && !(off <= j < off + i) ==> buf[j] == old(buf[j])
      {
        buf[off + i] := h[i];
      }
    }

    /** Take the tunnel headers off and put a new Ethernet header over their last bytes. */
    method Decapsulate(cut: nat, macs: Macs) returns (ok: bool)
      requires Valid() && macs.Valid() && cut + ETH_LEN <= READABLE
      modifies this`off, this`len, buf
      ensures off + len <= buf.Length
      ensures ok <==> cut <= old(len)
      ensures buf[off..off + len] ==
        if ok then Overwrite(old(buf[off + cut..off + len]), EthHeader(macs)) else old(buf[off..off + len])
    {
      ghost var rest := if cut <= len then buf[off + cut..off + len] else [];
      ok := Adjust(cut);
      if ok {
        var h := EthHeader(macs);
        assert forall i :: 0 <= i < len ==> buf[off + i] == rest[i];
        Store(h);
        OverwriteIs(rest, h, buf[off..off + len]);
      }
    }

    /** `packet_processor`, rewriting the packet in place. */
    method Run(recv: nat, rules: map<Key, Pdr>, macs: Macs) returns (verdict: Verdict)
      requires Valid() && macs.Valid()
      modifies this`off, this`len, buf
      ensures off + len <= buf.Length
      ensures Outcome(verdict, buf[off..off + len]) == old(Process(buf[off..], len, recv, rules, macs))
    {
      var b := buf[off..];
      ghost var n := len;
      var d := Inspect(b, recv, rules);
      match d
      case Leave(v) =>
        assert b[..n] == buf[off..off + len];
        verdict := v;
      case Strip(cut) =>
        assert b[..n] == buf[off..off + len];
        assert cut <= n ==> b[cut..n] == buf[off + cut..off + len];
        var ok := Decapsulate(cut, macs);
        verdict := if ok then ToLport(Peer(recv)) else Drop;
    }
  }

  /** The part of `packet_processor` that reads the headers. */
  method Inspect(b: Bytes, recv: nat, rules: map<Key, Pdr>) returns (d: Decision)
    requires |b| >= READABLE
    ensures d == Decide(b, recv, rules)
  {
    var o := PacketType(b);
    if o.kind == Udp {
      return Leave(Downlink);
    }
    if o.kind != Gtp {
      return Leave(Drop);
    }
    var g := b[ETH_LEN + o.l3Len + o.l4Len..];
    var h := ParseGtp(g);
    if h.None? {
      return Leave(Drop);
    }
    var key := KeyOf(g, h.value);
    if key !in rules {
      return Leave(Drop);
    }
    if rules[key].Decapsulates() {
      return Strip(o.l3Len + o.l4Len + h.value.len);
    }
    return Leave(ToLport(Peer(recv)));
  }

  // ----- encapsulated frames

  /**
    * An extension header of section 5.2 of 3GPP TS 29.281. Its text is a length in units of four
    * bytes, the content, and the type of the next extension header.
    */
  datatype Extension = Extension(kind: Byte, content: Bytes) {
    predicate Valid() { kind != NO_MORE_EXTENSIONS && |content| % 4 == 2 && |content| + 2 < 4 * 256 }
    function Units(): Byte requires Valid() { ((|content| + 2) / 4) as Byte }
    /** In a PDU session container (section 5.5.2 of 3GPP TS 38.415) the content starts with type and QFI. */
    function PduType(): Byte requires Valid() { content[0] / 16 }
    function Qfi(): nat requires Valid() { content[1] as int % 64 }
  }

  predicate AllValid(es: seq<Extension>) {
    forall i :: 0 <= i < |es| ==> es[i].Valid()
  }

  function FirstKind(es: seq<Extension>): Byte {
    if es == [] then NO_MORE_EXTENSIONS else es[0].kind
  }

  /** The chain of extension headers, each with the type of the next one. */
  function ExtensionText(es: seq<Extension>): (text: Bytes)
    requires AllValid(es)
  {
    if es == [] then []
    else [es[0].Units()] + es[0].content + [FirstKind(es[1..])] + ExtensionText(es[1..])
  }

  /** The QFI of the first PDU session container, 0 when there is none. */
  function QfiOf(es: seq<Extension>): nat
    requires AllValid(es)
  {
    if es == [] then 0 else if es[0].kind == PDU_SESSION_CONTAINER then es[0].Qfi() else QfiOf(es[1..])
  }

  /** A GTP-U packet as the standard has it; `nextType` is a byte that receivers must not evaluate when E is clear. */
  datatype Frame = Frame(
    macs: Bytes, ipFirst: Bytes, ipRest: Bytes, ihl: Byte, version: Byte, udpSource: Bytes, udpRest: Bytes,
    flags: Byte, msgType: Byte, length: Bytes, teid: nat, seqAndPdu: Bytes, nextType: Byte,
    extensions: seq<Extension>, innerHead: Bytes, ueIp: nat, innerRest: Bytes)
  {
    /** The E flag announces extension headers. */
    predicate HasE() { flags / 4 % 2 == 1 }

    /** Any of the E, S and PN flags brings the four optional bytes. */
    predicate HasOptional() { flags % 8 != 0 }

    predicate Valid() {
      && |macs| == 12
      && 5 <= ihl <= 15 && version < 16
      && |ipFirst| == 8 && |ipRest| == ihl as int * 4 - 10
      && |udpSource| == 2 && |udpRest| == 4
      && |length| == 2 && teid < TWO_32 && |seqAndPdu| == 3
      && AllValid(extensions)
      && (extensions != [] ==> HasE())
      && |innerHead| == 12 && ueIp < TWO_32 && |innerRest| >= 4
    }

    /**
      * The headers that `parse_gtphdr` reads to their true end: the optional bytes are there, the
      * byte it evaluates is 0 when E is clear, and the extension headers are none, or start with a
      * PDU session container and have the length that it assumes for its type.
      */
    predicate Supported()
      requires Valid()
    {
      && HasOptional()
      && if extensions == [] then HasE() || nextType == NO_MORE_EXTENSIONS
         else
           && extensions[0].kind == PDU_SESSION_CONTAINER
           && extensions[0].PduType() <= 1
           && |ExtensionText(extensions)| == (if extensions[0].PduType() == 1 then 4 else 8)
    }

    function Ip(): Bytes
      requires Valid()
    {
      [version * 16 + ihl] + ipFirst + [17] + ipRest
    }

    function UdpHeader(): Bytes { udpSource + [8, 104] + udpRest }

    function Optional(): Bytes {
      if HasOptional() then seqAndPdu + [if HasE() then FirstKind(extensions) else nextType] else []
    }

    function GtpText(): Bytes
      requires Valid()
    {
      [flags, msgType] + length + Encoded32(teid) + Optional() + ExtensionText(extensions)
    }

    function Text(): Bytes
      requires Valid()
    {
      macs + [8, 0] + Ip() + UdpHeader() + GtpText() + Inner()
    }

    /** The inner packet, with its source address in bytes 12 to 15. */
    function Inner(): (b: Bytes)
      requires Valid()
      ensures |b| >= 20
    {
      innerHead + Encoded32(ueIp) + innerRest
    }

    /** The rule that this packet asks for. */
    function RuleKey(): Key
      requires Valid()
    {
      Key(0, ueIp, teid, QfiOf(extensions))
    }
  }

  lemma IpIs(f: Frame)
    requires f.Valid()
    ensures |f.Ip()| == f.ihl as int * 4
    ensures f.Ip()[0] as int % 16 == f.ihl as int && f.Ip()[9] == 17
  {
  }

  /** Where the parts of a frame are, whatever bytes follow it in the buffer. */
  lemma Layout(f: Frame, tail: Bytes)
    requires f.Valid()
    ensures var b, n := f.Text() + tail, f.ihl as int * 4;
            && |f.Text()| == ETH_LEN + n + UDP_LEN + |f.GtpText()| + |f.Inner()|
            && b[12..14] == [8, 0]
            && b[ETH_LEN..ETH_LEN + n] == f.Ip()
            && b[ETH_LEN + n..ETH_LEN + n + UDP_LEN] == f.UdpHeader()
            && b[ETH_LEN + n + UDP_LEN..] == f.GtpText() + f.Inner() + tail
  {
    IpIs(f);
    Pieces(f.macs + [8, 0], f.Ip(), f.UdpHeader(), f.GtpText(), f.Inner(), tail);
    assert f.UdpHeader() == f.udpSource + [8, 104] + f.udpRest;
    assert (f.macs + [8, 0])[12..14] == [8, 0];
    assert (f.Text() + tail)[12..14] == (f.Text() + tail)[..ETH_LEN][12..14];
  }

  /** Where the parts of a concatenation are. */
  lemma Pieces(a: Bytes, b: Bytes, c: Bytes, d: Bytes, e: Bytes, tail: Bytes)
    ensures var t := a + b + c + d + e + tail;
            && t[..|a|] == a
            && t[|a|..|a| + |b|] == b
            && t[|a| + |b|..|a| + |b| + |c|] == c
            && t[|a| + |b| + |c|..] == d + e + tail
  {
    var rest := d + e + tail;
    assert a + b + c + d + e + tail == (a + b + c) + rest;
    assert a + b + c + rest == a + (b + (c + rest));
  }

  lemma OuterIsGtp(f: Frame, tail: Bytes)
    requires f.Valid() && |f.Text() + tail| >= READABLE
    ensures PacketType(f.Text() + tail) == Outer(Gtp, f.ihl as int * 4, UDP_LEN)
  {
    var b, n := f.Text() + tail, f.ihl as int * 4;
    Layout(f, tail);
    IpIs(f);
    assert b[12] == b[12..14][0] && b[13] == b[12..14][1];
    assert b[ETH_LEN] == b[ETH_LEN..ETH_LEN + n][0] && b[ETH_LEN + 9] == b[ETH_LEN..ETH_LEN + n][9];
    var u := b[ETH_LEN + n..ETH_LEN + n + UDP_LEN];
    assert u[2] == 8 && u[3] == 104;
    assert b[ETH_LEN + n + 2] == u[2] && b[ETH_LEN + n + 3] == u[3];
  }

  /** The parsed length of a header is its true length if and only if the header is supported. */
  lemma HeaderLengthIff(f: Frame, tail: Bytes)
    requires f.Valid()
    ensures var h := GtpHeaderOf(f.GtpText() + f.Inner() + tail);
            h.Some? && h.value.len == |f.GtpText()| <==> f.Supported()
  {
    var g := f.GtpText() + f.Inner() + tail;
    if f.HasOptional() {
      HeaderBytes(f, tail);
      assert |f.GtpText()| == GTP_LEN + |ExtensionText(f.extensions)|;
      ExtensionsLength(f.extensions);
    }
  }

  /** There is no extension header of length 0. */
  lemma ExtensionsLength(es: seq<Extension>)
    requires AllValid(es)
    ensures es != [] ==> |ExtensionText(es)| >= 4
  {
  }

  /** What `parse_gtphdr` looks at in a header with its optional bytes. */
  lemma HeaderBytes(f: Frame, tail: Bytes)
    requires f.Valid() && f.HasOptional()
    ensures var g := f.GtpText() + f.Inner() + tail;
            && g[4..8] == Encoded32(f.teid)
            && g[11] == (if f.HasE() then FirstKind(f.extensions) else f.nextType)
            && (f.extensions != [] ==> g[13] == f.extensions[0].content[0] && g[14] == f.extensions[0].content[1])
  {
    var g, es := f.GtpText() + f.Inner() + tail, f.extensions;
    var fixed := [f.flags, f.msgType] + f.length + Encoded32(f.teid);
    var rest := ExtensionText(es) + f.Inner() + tail;
    assert g == fixed + (f.Optional() + rest);
    assert g[4..8] == Encoded32(f.teid);
    assert g[11] == f.Optional()[3];
    assert g[12..] == rest;
    if es != [] {
      assert rest[1] == es[0].content[0] && rest[2] == es[0].content[1];
      assert g[13] == rest[1] && g[14] == rest[2];
    }
  }

  lemma KeyIs(f: Frame, tail: Bytes)
    requires f.Valid() && f.Supported()
    ensures var g := f.GtpText() + f.Inner() + tail;
            GtpHeaderOf(g).Some? && KeyOf(g, GtpHeaderOf(g).value) == f.RuleKey()
  {
    var g, len := f.GtpText() + f.Inner() + tail, |f.GtpText()|;
    HeaderLengthIff(f, tail);
    HeaderBytes(f, tail);
    Decoded(g, 4, f.teid);
    assert g[len + 12..len + 16] == Encoded32(f.ueIp);
    Decoded(g, len + 12, f.ueIp);
  }

  /** The other lport of a pair. */
  ghost predicate IsPeer(recv: nat, verdict: Verdict) {
    verdict.ToLport? && verdict.lport != recv && verdict.lport / 2 == recv / 2
  }

  /**
    * Every frame with a supported header, whatever its IPv4 header length and with or without a
    * container, is looked up under its own TEID, inner source address and QFI. Without a rule it is
    * dropped; else it goes to the other lport of its pair, and a forward-and-remove rule turns it into
    * the configured addresses and the inner packet.
    */
  lemma UplinkOutcome(f: Frame, tail: Bytes, recv: nat, rules: map<Key, Pdr>, macs: Macs)
    requires f.Valid() && f.Supported() && macs.Valid() && |f.Text() + tail| >= READABLE
    ensures var out := Process(f.Text() + tail, |f.Text()|, recv, rules, macs);
            var key := Key(0, f.ueIp, f.teid, QfiOf(f.extensions));
            if key !in rules then out == Outcome(Drop, f.Text())
            else
              && IsPeer(recv, out.verdict)
              && out.packet ==
                if rules[key].Decapsulates() then macs.dnn + macs.upfDnn + [8, 0] + f.Inner() else f.Text()
  {
    var t := f.Text();
    DecisionIs(f, tail, recv, rules);
    assert (t + tail)[..|t|] == t;
    InnerStays(f, tail, macs);
  }

  /** The lports come in pairs. */
  lemma PeerIs(recv: nat)
    ensures IsPeer(recv, ToLport(Peer(recv))) && Peer(Peer(recv)) == recv
  {
  }

  predicate Bit(x: nat, mask: nat)
    requires mask > 0
  {
    x / mask % 2 == 1
  }

  /** A rule decapsulates when it forwards, without dropping or buffering, and removes the outer header. */
  lemma DecapsulatesIs(rule: Pdr)
    ensures rule.Decapsulates() <==>
      Bit(rule.applyAction, 2) && !Bit(rule.applyAction, 1) && !Bit(rule.applyAction, 4) && Bit(rule.pdrMask, 1)
  {
    var q, r := rule.applyAction / 8, rule.applyAction % 8;
    DivModUnique(rule.applyAction, 2, 4 * q + r / 2, r % 2);
    DivModUnique(rule.applyAction, 4, 2 * q + r / 4, r % 4);
    DivModUnique(4 * q + r / 2, 2, 2 * q + r / 4, r / 2 % 2);
    DivModUnique(2 * q + r / 4, 2, q, r / 4);
  }

  /** IPv4 over Ethernet with a UDP header for a given destination port. */
  ghost predicate UdpTo(b: Bytes, port: Bytes)
    requires |b| >= READABLE
  {
    var udp := ETH_LEN + b[ETH_LEN] as int % 16 * 4;
    b[12..14] == [8, 0] && b[ETH_LEN + 9] == 17 && b[udp + 2..udp + 4] == port
  }

  /**
    * Only packets for the GTP-U port are looked up: all others are left as they are, and dropped
    * unless they are UDP packets for another port than those of GTP-U and PFCP.
    */
  lemma OtherPackets(b: Bytes, len: nat, recv: nat, rules: map<Key, Pdr>, macs: Macs)
    requires |b| >= READABLE && len <= |b| && macs.Valid() && !UdpTo(b, [8, 104])
    ensures Process(b, len, recv, rules, macs).packet == b[..len]
    ensures Process(b, len, recv, rules, macs).verdict ==
      if (exists port :: UdpTo(b, port)) && !UdpTo(b, [34, 101]) then Downlink else Drop
  {
    var udp := ETH_LEN + b[ETH_LEN] as int % 16 * 4;
    var port := b[udp + 2..udp + 4];
    assert b[12..14] == [b[12], b[13]];
    assert port == [b[udp + 2], b[udp + 3]];
    if b[12..14] == [8, 0] && b[ETH_LEN + 9] == 17 {
      assert UdpTo(b, port);
    }
  }

  lemma DecisionIs(f: Frame, tail: Bytes, recv: nat, rules: map<Key, Pdr>)
    requires f.Valid() && f.Supported() && |f.Text() + tail| >= READABLE
    ensures Decide(f.Text() + tail, recv, rules) ==
      if f.RuleKey() !in rules then Leave(Drop)
      else if rules[f.RuleKey()].Decapsulates() then Strip(f.ihl as int * 4 + UDP_LEN + |f.GtpText()|)
      else Leave(ToLport(Peer(recv)))
  {
    Layout(f, tail);
    OuterIsGtp(f, tail);
    HeaderLengthIff(f, tail);
    KeyIs(f, tail);
  }

  lemma InnerStays(f: Frame, tail: Bytes, macs: Macs)
    requires f.Valid() && macs.Valid()
    ensures var cut := f.ihl as int * 4 + UDP_LEN + |f.GtpText()|;
            && cut + ETH_LEN + |f.Inner()| == |f.Text()|
            && Overwrite((f.Text() + tail)[cut..|f.Text()|], EthHeader(macs)) == EthHeader(macs) + f.Inner()
  {
    var b, cut := f.Text() + tail, f.ihl as int * 4 + UDP_LEN + |f.GtpText()|;
    Layout(f, tail);
    var rest := b[cut..|f.Text()|];
    var g := b[ETH_LEN + f.ihl as int * 4 + UDP_LEN..];
    forall i | 0 <= i < |f.Inner()| ensures rest[ETH_LEN + i] == f.Inner()[i] {
      assert rest[ETH_LEN + i] == b[cut + ETH_LEN + i] == g[|f.GtpText()| + i];
    }
    assert rest[ETH_LEN..] == f.Inner();
  }

  /** A header that is not supported is cut at the wrong place, or the frame is dropped as it is. */
  lemma UnsupportedFails(f: Frame, tail: Bytes, recv: nat, rules: map<Key, Pdr>, macs: Macs)
    requires f.Valid() && !f.Supported() && macs.Valid() && |f.Text() + tail| >= READABLE
    ensures Process(f.Text() + tail, |f.Text()|, recv, rules, macs).packet != EthHeader(macs) + f.Inner()
  {
    Layout(f, tail);
    OuterIsGtp(f, tail);
    HeaderLengthIff(f, tail);
  }

  /** A matching rule decapsulates a frame if and only if its header is supported. */
  lemma DecapsulatesIff(f: Frame, tail: Bytes, recv: nat, rules: map<Key, Pdr>, macs: Macs)
    requires f.Valid() && macs.Valid() && |f.Text() + tail| >= READABLE
    requires f.RuleKey() in rules && rules[f.RuleKey()].Decapsulates()
    ensures Process(f.Text() + tail, |f.Text()|, recv, rules, macs) ==
        Outcome(ToLport(Peer(recv)), macs.dnn + macs.upfDnn + [8, 0] + f.Inner())
      <==> f.Supported()
  {
    if f.Supported() {
      UplinkOutcome(f, tail, recv, rules, macs);
    } else {
      UnsupportedFails(f, tail, recv, rules, macs);
    }
  }
}
