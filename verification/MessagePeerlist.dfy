/** The peer list carried in the body of a message: six bytes a peer, read and written as text. */
module PeerLists {
  import opened Options
  import opened Messages

  // ---------- Decimal text ----------

  function Digit(d: nat): char
    requires d < 10
  {
    ('0' as int + d) as char
  }

  predicate IsDigit(c: char) {
    '0' <= c <= '9'
  }

  /** `lexical_cast<string>` of an unsigned number. */
  function Render(n: nat): (s: string)
    ensures s != []
  {
    if n < 10 then [Digit(n)] else Render(n / 10) + [Digit(n % 10)]
  }

  predicate AllDigits(s: string) {
    forall i :: 0 <= i < |s| ==> IsDigit(s[i])
  }

  function Parse(s: string): nat
    requires AllDigits(s)
  {
    if s == [] then 0
    else
      var last := |s| - 1;
      assert IsDigit(s[last]);
      Parse(s[..last]) * 10 + (s[last] as int - '0' as int)
  }

  predicate IsSign(c: char) {
    c == '+' || c == '-'
  }

  /** `lexical_cast<uint16_t>`: `None` is its exception. A sign may come first, and a minus negates modulo 2^16. */
  function ToUInt16(s: string): Option<nat> {
    var digits := if s != [] && IsSign(s[0]) then s[1..] else s;
    if digits == [] || !AllDigits(digits) || Parse(digits) >= 0x1_0000 then None
    else Some(if s[0] == '-' then (0x1_0000 - Parse(digits)) % 0x1_0000 else Parse(digits))
  }

  lemma {:induction false} ParseRender(n: nat)
    ensures AllDigits(Render(n)) && Parse(Render(n)) == n
  {
    if n >= 10 {
      ParseRender(n / 10);
      var s := Render(n);
      assert s[..|s| - 1] == Render(n / 10);
    }
  }

  /** What a number may look like: decimal digits that fit 16 bits, with a sign or without; a minus negates. */
  lemma NumberText(digits: string)
    requires digits != [] && AllDigits(digits)
    ensures ToUInt16(digits) == if Parse(digits) < 0x1_0000 then Some(Parse(digits)) else None
    ensures ToUInt16("+" + digits) == ToUInt16(digits)
    ensures ToUInt16("-" + digits)
            == if Parse(digits) >= 0x1_0000 then None
               else Some(if Parse(digits) == 0 then 0 else 0x1_0000 - Parse(digits))
  {
    hide Parse;
    assert ("+" + digits)[1..] == digits == ("-" + digits)[1..];
    assert !IsSign(digits[0]) by {
      assert IsDigit(digits[0]);
    }
  }

  /** And nothing else is one. */
  lemma OnlyNumbersParse(s: string)
    requires ToUInt16(s).Some?
    ensures exists digits :: digits != [] && AllDigits(digits)
                             && (s == digits || s == "+" + digits || s == "-" + digits)
  {
    hide Parse;
    if IsSign(s[0]) {
      assert s == [s[0]] + s[1..];
      assert AllDigits(s[1..]);
    }
  }

  // ---------- Addresses ----------

  /** An IPv4 address and a port. */
  datatype Address = Address(octets: Bytes, port: nat) {
    ghost predicate Valid() {
      |octets| == 4 && port < 0x1_0000
    }
  }

  function Quad(octets: Bytes): string
    requires |octets| == 4
  {
    Render(octets[0]) + "." + Render(octets[1]) + "." + Render(octets[2]) + "." + Render(octets[3])
  }

  /** `find('.')`; the length of the string stands for `npos`. */
  function FindDot(s: string): (i: nat)
    ensures i <= |s|
    ensures i < |s| ==> s[i] == '.'
    ensures forall j :: 0 <= j < i ==> s[j] != '.'
  {
    if s == [] || s[0] == '.' then 0 else 1 + FindDot(s[1..])
  }

  function FirstOctet(ip: string): string {
    ip[..FindDot(ip)]
  }

  /** The text after the first dot -- or all of it, if there is none. */
  function RestOfIp(ip: string): string {
    if FindDot(ip) < |ip| then ip[FindDot(ip) + 1..] else ip
  }

  /** The next `n` octets of a dotted text, or the exception its conversion raises. */
  function ParseOctets(ip: string, n: nat): (r: Option<Bytes>)
    ensures r.Some? ==> |r.value| == n
  {
    if n == 0 then Some([])
    else
      var octet := ToUInt16(FirstOctet(ip));
      if octet.None? then None
      else Prepend([octet.value % 256], ParseOctets(RestOfIp(ip), n - 1))
  }

  function Prepend(a: Bytes, r: Option<Bytes>): Option<Bytes> {
    if r.None? then None else Some(a + r.value)
  }

  lemma PrependTwice(a: Bytes, b: Bytes, r: Option<Bytes>)
    ensures Prepend(a, Prepend(b, r)) == Prepend(a + b, r) && Prepend([], r) == r
  {
    if r.Some? {
      assert a + (b + r.value) == (a + b) + r.value && [] + r.value == r.value;
    }
  }

  /** `written` and what the rest of the text gives in `n` octets make the four octets of the address. */
  ghost predicate Tracks(ip: string, written: Bytes, text: string, n: nat) {
    ParseOctets(ip, 4) == Prepend(written, ParseOctets(text, n))
  }

  lemma TracksEnds(ip: string, written: Bytes, text: string)
    ensures Tracks(ip, [], ip, 4)
    ensures Tracks(ip, written, text, 0) ==> ParseOctets(ip, 4) == Some(written)
  {
    PrependTwice([], [], ParseOctets(ip, 4));
    assert written + [] == written;
  }

  /** One more octet of the text behind what is written already. */
  lemma TracksStep(ip: string, written: Bytes, text: string, n: nat)
    requires n > 0 && Tracks(ip, written, text, n)
    ensures var octet := ToUInt16(FirstOctet(text));
            if octet.None? then ParseOctets(ip, 4) == None
            else Tracks(ip, written + [octet.value % 256], RestOfIp(text), n - 1)
  {
    hide ToUInt16, FindDot, FirstOctet, RestOfIp;
    var octet := ToUInt16(FirstOctet(text));
    if octet.Some? {
      PrependTwice(written, [octet.value % 256], ParseOctets(RestOfIp(text), n - 1));
    }
  }

  function ParseAddress(ip: string, port: string): (r: Option<Address>)
    ensures r.Some? ==> r.value.Valid()
  {
    var octets, p := ParseOctets(ip, 4), ToUInt16(port);
    if octets.None? || p.None? then None else Some(Address(octets.value, p.value))
  }

  lemma DotAfterDigits(a: string, rest: string)
    requires AllDigits(a)
    ensures FirstOctet(a + "." + rest) == a && RestOfIp(a + "." + rest) == rest
  {
    var s := a + "." + rest;
    assert s[|a|] == '.';
    assert forall j :: 0 <= j < |a| ==> s[j] == a[j];
    assert FindDot(s) == |a|;
    assert s[|a| + 1..] == rest;
  }

  lemma NoDotInDigits(a: string)
    requires AllDigits(a)
    ensures FirstOctet(a) == a
  {
    assert FindDot(a) == |a|;
  }

  lemma OctetValue(octet: Byte)
    ensures ToUInt16(Render(octet)) == Some(octet)
  {
    ParseRender(octet);
  }

  lemma ParseStep(ip: string, octet: Byte, n: nat)
    requires n > 0 && ToUInt16(FirstOctet(ip)) == Some(octet)
    ensures ParseOctets(ip, n) == Prepend([octet], ParseOctets(RestOfIp(ip), n - 1))
  {
    hide ToUInt16, FirstOctet, RestOfIp, Prepend;
  }

  lemma OneOctet(octet: Byte, rest: string, n: nat)
    requires n > 0
    ensures ParseOctets(Render(octet) + "." + rest, n) == Prepend([octet], ParseOctets(rest, n - 1))
  {
    hide ToUInt16, Render, FirstOctet, RestOfIp, Prepend, ParseOctets, Parse;
    ParseRender(octet);
    OctetValue(octet);
    DotAfterDigits(Render(octet), rest);
    ParseStep(Render(octet) + "." + rest, octet, n);
  }

  lemma LastOctet(octet: Byte)
    ensures ParseOctets(Render(octet), 1) == Some([octet])
  {
    hide ToUInt16, Render, FirstOctet, RestOfIp, Parse;
    ParseRender(octet);
    OctetValue(octet);
    NoDotInDigits(Render(octet));
    ParseStep(Render(octet), octet, 1);
    assert ParseOctets(RestOfIp(Render(octet)), 0) == Some([]);
    hide ParseOctets;
    assert [octet] + [] == [octet];
  }

  /** Dotted quads parse to their octets. */
  lemma QuadRoundTrip(o0: Byte, o1: Byte, o2: Byte, o3: Byte)
    ensures ParseOctets(Render(o0) + "." + (Render(o1) + "." + (Render(o2) + "." + Render(o3))), 4)
            == Some([o0, o1, o2, o3])
  {
    hide ParseOctets, Render;
    LastOctet(o3);
    OneOctet(o2, Render(o3), 2);
    assert [o2] + [o3] == [o2, o3];
    OneOctet(o1, Render(o2) + "." + Render(o3), 3);
    assert [o1] + [o2, o3] == [o1, o2, o3];
    OneOctet(o0, Render(o1) + "." + (Render(o2) + "." + Render(o3)), 4);
    assert [o0] + [o1, o2, o3] == [o0, o1, o2, o3];
  }

  /** Concatenation is associative. */
  lemma QuadShape(a: string, b: string, c: string, d: string)
    ensures a + "." + b + "." + c + "." + d == a + "." + (b + "." + (c + "." + d))
  {
    assert a + "." + b + "." + c + "." + d == a + "." + (b + ("." + (c + ("." + d))));
  }

  lemma QuadParses(octets: seq<Byte>)
    requires |octets| == 4
    ensures ParseOctets(Quad(octets), 4) == Some(octets)
  {
    hide ParseOctets, Render;
    var o := octets;
    QuadShape(Render(o[0]), Render(o[1]), Render(o[2]), Render(o[3]));
    QuadRoundTrip(o[0], o[1], o[2], o[3]);
    assert [o[0], o[1], o[2], o[3]] == o;
  }

  /** Text round trip: the dotted quad and decimal port of an address parse to that address. */
  lemma AddressRoundTrip(a: Address)
    requires a.Valid()
    ensures ParseAddress(Quad(a.octets), Render(a.port)) == Some(a)
  {
    hide ParseOctets, Render, Quad;
    QuadParses(a.octets);
    ParseRender(a.port);
  }

  /** The address stored in the six bytes at `at`. */
  function AddressAt(b: Bytes, at: nat): (a: Address)
    requires at + 6 <= |b|
    ensures a.Valid()
  {
    Address(b[at..at + 4], b[at + 4] as int * 256 + b[at + 5] as int)
  }

  /** A stored address is its octets in order and then its port, high byte first. */
  lemma AddressBytes(b: Bytes, at: nat, a: Address)
    requires at + 6 <= |b| && a.Valid()
    ensures AddressAt(b, at) == a <==> b[at..at + 6] == a.octets + [a.port / 256, a.port % 256]
  {
    var high: int, low: int := b[at + 4], b[at + 5];
    assert b[at..at + 6] == b[at..at + 4] + [b[at + 4], b[at + 5]];
    assert (high * 256 + low) / 256 == high && (high * 256 + low) % 256 == low;
    if b[at..at + 6] == a.octets + [a.port / 256, a.port % 256] {
      assert b[at..at + 4] == b[at..at + 6][..4];
      assert b[at + 4] == b[at..at + 6][4] && b[at + 5] == b[at..at + 6][5];
    }
  }

  /** What the text of an address looks like. */
  lemma AddressText()
    ensures Quad([192, 168, 0, 7]) == "192.168.0.7" && Render(8080) == "8080"
  {
    assert Render(1) == "1" && Render(19) == "19" && Render(192) == "192";
    assert Render(16) == "16" && Render(168) == "168" && Render(0) == "0" && Render(7) == "7";
    assert Render(8) == "8" && Render(80) == "80" && Render(808) == "808";
    hide Render;
    assert "192" + "." + "168" + "." + "0" + "." + "7" == "192.168.0.7";
  }

  lemma TwoPortBytes(high: Byte, low: Byte)
    ensures ShortSetLow(ShortSetHigh(0, high), low) == high * 256 + low
  {
    var h: int := high;
    assert ShortSetHigh(0, high) == h * 256;
    assert h * 256 / 256 == h;
  }

  // ---------- The message object ----------

  class MessagePeerlist {
    const firstByte: array<Byte>
    const headerSize: nat
    const qtdPeers: nat
    var peersAdded: nat
    /** The addresses added so far. */
    ghost var added: seq<Address>

    ghost predicate Valid()
      reads this, firstByte
    {
      && headerSize + 6 * qtdPeers <= firstByte.Length
      && |added| == peersAdded <= qtdPeers
      && forall i :: 0 <= i < peersAdded ==> AddressAt(firstByte[..], headerSize + 6 * i) == added[i]
    }

    constructor (headerSize: nat, qtdPeers: nat)
      ensures Valid() && fresh(firstByte)
      ensures added == [] && this.qtdPeers == qtdPeers && this.headerSize == headerSize
    {
      firstByte := new Byte[headerSize + 6 * qtdPeers](_ => 0);
      this.headerSize := headerSize;
      this.qtdPeers := qtdPeers;
      peersAdded := 0;
      added := [];
    }

    /** Adding past the declared count is ignored. An address that does not parse raises (`ok` is
      * false): nothing is added, and what was added before is untouched. */
    method AddPeer(ip: string, port: string) returns (ok: bool)
      requires Valid()
      modifies this, firstByte
      ensures Valid()
      ensures ok <==> old(peersAdded) >= qtdPeers || ParseAddress(ip, port).Some?
      ensures added == old(added) + if ok && old(peersAdded) < qtdPeers then [ParseAddress(ip, port).value] else []
      ensures old(peersAdded) >= qtdPeers ==> firstByte[..] == old(firstByte[..])
    {
      hide ParseOctets, AddressAt;
      if peersAdded >= qtdPeers {
        return true;
      }
      var peerToWrite := headerSize + peersAdded * 6;
      ghost var before := firstByte[..];
      ok := WriteIpStringToArray(ip, peerToWrite);
      SameAddresses(before, firstByte[..], peerToWrite);
      if !ok {
        return;
      }
      var number := ToUInt16(port);
      if number.None? {
        return false;
      }
      firstByte[peerToWrite + 4] := ShortGetHigh(number.value);
      firstByte[peerToWrite + 5] := ShortGetLow(number.value);
      peersAdded := peersAdded + 1;
      added := added + [ParseAddress(ip, port).value];
      SameAddresses(before, firstByte[..], peerToWrite);
      StoredAddress(firstByte[..], peerToWrite, ParseOctets(ip, 4).value, number.value);
    }

    static lemma StoredAddress(b: Bytes, at: nat, octets: Bytes, port: nat)
      requires at + 6 <= |b| && b[at..at + 4] == octets && port < 0x1_0000
      requires b[at + 4] == ShortGetHigh(port) && b[at + 5] == ShortGetLow(port)
      ensures AddressAt(b, at) == Address(octets, port)
    {}

    /** Addresses before a position do not change when only bytes from that position on do. */
    static lemma SameAddresses(b: Bytes, b': Bytes, at: nat)
      requires |b'| == |b| && at <= |b| && b'[..at] == b[..at]
      ensures forall k :: 0 <= k && k + 6 <= at ==> AddressAt(b', k) == AddressAt(b, k)
    {
      forall k | 0 <= k && k + 6 <= at
        ensures AddressAt(b', k) == AddressAt(b, k)
      {
        assert forall j :: 0 <= j < at ==> b'[..at][j] == b[..at][j];
      }
    }

    method WriteIpStringToArray(ip: string, arrayBegin: nat) returns (ok: bool)
      requires arrayBegin + 4 <= firstByte.Length
      modifies firstByte
      ensures ok <==> ParseOctets(ip, 4).Some?
      ensures ok ==> firstByte[arrayBegin..arrayBegin + 4] == ParseOctets(ip, 4).value
      ensures forall k :: 0 <= k < firstByte.Length && !(arrayBegin <= k < arrayBegin + 4) ==>
                firstByte[k] == old(firstByte[k])
    {
      hide ToUInt16, FindDot, ParseOctets, Tracks;
      TracksEnds(ip, [], ip);
      var text := ip;
      ghost var written: Bytes := [];
      for octetI := 0 to 4
        invariant |written| == octetI && Tracks(ip, written, text, 4 - octetI)
        invariant forall k :: 0 <= k < octetI ==> firstByte[arrayBegin + k] == written[k]
        invariant forall k :: 0 <= k < firstByte.Length && !(arrayBegin <= k < arrayBegin + 4) ==>
                    firstByte[k] == old(firstByte[k])
      {
        TracksStep(ip, written, text, 4 - octetI);
        var dotI := FindDot(text);
        var octet := text[..dotI];
        var value := ToUInt16(octet);
        if value.None? {
          return false;
        }
        if dotI < |text| {
          text := text[dotI + 1..];
        }
        firstByte[arrayBegin + octetI] := value.value % 256;
        written := written + [value.value % 256];
      }
      ok := true;
      TracksEnds(ip, written, text);
      assert firstByte[arrayBegin..arrayBegin + 4] == written;
    }

    method GetPeer(index: nat) returns (ip: string, port: string)
      requires headerSize + 6 * index + 6 <= firstByte.Length
      ensures ip == Quad(AddressAt(firstByte[..], headerSize + 6 * index).octets)
      ensures port == Render(AddressAt(firstByte[..], headerSize + 6 * index).port)
    {
      hide Render;
      var at := headerSize + index * 6;
      ip := Render(firstByte[at]) + "." + Render(firstByte[at + 1]) + "."
            + Render(firstByte[at + 2]) + "." + Render(firstByte[at + 3]);
      TwoPortBytes(firstByte[at + 4], firstByte[at + 5]);
      port := Render(ShortSetLow(ShortSetHigh(0, firstByte[at + 4]), firstByte[at + 5]));
    }
  }

  /** The `i`-th peer read is the `i`-th peer added, for canonical addresses. */
  method AddThenRead(addresses: seq<Address>, message: MessagePeerlist, i: nat) returns (ip: string, port: string)
    requires message.Valid() && message.added == [] && forall k :: 0 <= k < |addresses| ==> addresses[k].Valid()
    requires i < |addresses| && i < message.qtdPeers && addresses[i].Valid()
    modifies message, message.firstByte
    ensures ip == Quad(addresses[i].octets) && port == Render(addresses[i].port)
  {
    hide ParseAddress, Render, Quad, AddressAt;
    for k := 0 to |addresses|
      invariant message.Valid() && message.peersAdded == |message.added|
      invariant message.added == addresses[..if k <= message.qtdPeers then k else message.qtdPeers]
    {
      AddressRoundTrip(addresses[k]);
      var _ := message.AddPeer(Quad(addresses[k].octets), Render(addresses[k].port));
    }
    assert message.added[i] == addresses[i];
    ip, port := message.GetPeer(i);
  }
}
