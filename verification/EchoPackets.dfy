/** The raw packets of the echo server: how a received IPv4 packet is read (RFC 791 section 3.1 and
    RFC 768) and how the reply datagram is built. */
module EchoPackets {
  import opened Text

  const SERVER_PORT := 8888
  const MAX_CLIENTS := 100
  const BUFFER_SIZE := 65536
  const IP_HEADER := 20  // sizeof(struct iphdr)
  const UDP_HEADER := 8  // sizeof(struct udphdr)
  const MAX_PACKET := 65535  // what the 16-bit Total Length of an IPv4 packet can say

  /** A source address and port, in network byte order as the server keeps them. */
  datatype Client = Client(ip: seq<Byte>, port: seq<Byte>)

  datatype Packet = Dropped | Close(client: Client) | Data(client: Client, data: seq<Byte>)

  function Word(hi: Byte, lo: Byte): nat {
    hi as int * 256 + lo as int
  }

  /** `htons`, as the two bytes on the wire. */
  function WordBytes(n: nat): (b: seq<Byte>)
    requires n < 0x1_0000
    ensures |b| == 2 && Word(b[0], b[1]) == n
  {
    [(n / 256) as char, (n % 256) as char]
  }

  /** `int data_len = n - ip_header_len - sizeof(struct udphdr)`: `sizeof` makes the difference an
      unsigned 64-bit number, which is then cut to a 32-bit int; a negative one becomes 0. */
  function DataLength(n: nat, ipHeader: nat): nat {
    var wide := (n - ipHeader - UDP_HEADER) % 0x1_0000_0000_0000_0000;
    var word := wide % 0x1_0000_0000;
    var len := if word >= 0x8000_0000 then word - 0x1_0000_0000 else word;
    if len < 0 then 0 else len
  }

  lemma DataLengthExact(n: nat, ipHeader: nat)
    requires n <= BUFFER_SIZE && ipHeader <= n
    ensures DataLength(n, ipHeader) == if n >= ipHeader + UDP_HEADER then n - ipHeader - UDP_HEADER else 0
  {
  }

  /** IHL: the low four bits of the first byte, in 32-bit words. */
  function HeaderLength(first: Byte): (h: nat)
    ensures h <= 60
  {
    (first as int % 16) * 4
  }

  /** What the server makes of `n` bytes received into `buffer`. */
  function ReadPacket(buffer: seq<Byte>, n: nat): (p: Packet)
    requires |buffer| == BUFFER_SIZE && n <= BUFFER_SIZE
    ensures p.Data? && n <= MAX_PACKET ==> |p.data| <= MAX_PACKET - IP_HEADER - UDP_HEADER
  {
    if n < IP_HEADER + UDP_HEADER then Dropped
    else
      var h := HeaderLength(buffer[0]);
      if h < IP_HEADER || h > n then Dropped
      else if Word(buffer[h + 2], buffer[h + 3]) != SERVER_PORT then Dropped
      else
        var c := Client(buffer[12..16], buffer[h..h + 2]);
        var len := DataLength(n, h);
        DataLengthExact(n, h);
        var data := buffer[h + UDP_HEADER..h + UDP_HEADER + len];
        if data == "CLOSE" then Close(c) else Data(c, data)
  }

  /** What was read depends on the received bytes alone, whatever an earlier packet left behind them. */
  ghost predicate Determined(buffer: seq<Byte>, n: nat)
    requires |buffer| == BUFFER_SIZE && n <= BUFFER_SIZE
  {
    forall other: seq<Byte> :: |other| == BUFFER_SIZE && other[..n] == buffer[..n] ==>
      ReadPacket(other, n) == ReadPacket(buffer, n)
  }

  /** A packet the checks let through although it ends inside the two ports of its UDP header, and whose
      destination port may still turn out to be the server's. */
  predicate EndsInPorts(buffer: seq<Byte>, n: nat)
    requires |buffer| == BUFFER_SIZE
  {
    var h := HeaderLength(buffer[0]);
    && n >= IP_HEADER + UDP_HEADER && IP_HEADER <= h <= n < h + 4
    && (n == h + 3 ==> buffer[h + 2] as int == SERVER_PORT / 256)
  }

  lemma SameBytes(a: seq<Byte>, b: seq<Byte>, n: nat, i: nat, j: nat)
    requires |a| == |b| == BUFFER_SIZE && i <= j <= n <= BUFFER_SIZE && a[..n] == b[..n]
    ensures a[i..j] == b[i..j] && forall k :: i <= k < j ==> a[k] == b[k]
  {
    assert a[i..j] == a[..n][i..j] && b[i..j] == b[..n][i..j];
    assert forall k :: i <= k < j ==> a[k] == a[..n][k] && b[k] == b[..n][k];
  }

  /** Unless a packet ends inside its ports, the server reads received bytes only. */
  lemma ReadsReceived(a: seq<Byte>, b: seq<Byte>, n: nat)
    requires |a| == |b| == BUFFER_SIZE && n <= BUFFER_SIZE && a[..n] == b[..n] && !EndsInPorts(a, n)
    ensures ReadPacket(a, n) == ReadPacket(b, n)
  {
    hide DataLength;
    if n >= IP_HEADER + UDP_HEADER {
      SameBytes(a, b, n, 0, n);
      var h := HeaderLength(a[0]);
      if IP_HEADER <= h <= n {
        DataLengthExact(n, h);
        SameBytes(a, b, n, 12, 16);
        if n >= h + 4 {
          SameBytes(a, b, n, h, h + 2);
          if n >= h + UDP_HEADER {
            SameBytes(a, b, n, h + UDP_HEADER, n);
          }
        }
      }
    }
  }

  /** In a packet that ends inside its ports, the destination port is made up of bytes that were not received. */
  lemma ReadsStale(buffer: seq<Byte>, n: nat) returns (mine: seq<Byte>, other: seq<Byte>)
    requires |buffer| == BUFFER_SIZE && n <= BUFFER_SIZE && EndsInPorts(buffer, n)
    ensures |mine| == |other| == BUFFER_SIZE && mine[..n] == other[..n] == buffer[..n]
    ensures ReadPacket(mine, n) != Dropped && ReadPacket(other, n) == Dropped
  {
    hide DataLength;
    var h := HeaderLength(buffer[0]);
    mine := if n < h + 3 then buffer[h + 2 := 34 as char] else buffer;
    mine := mine[h + 3 := 184 as char];
    other := mine[h + 3 := 0 as char];
    DataLengthExact(n, h);
    assert Word(mine[h + 2], mine[h + 3]) == SERVER_PORT && Word(other[h + 2], other[h + 3]) != SERVER_PORT;
  }

  /** The exact condition. */
  lemma ReadIsDetermined(buffer: seq<Byte>, n: nat)
    requires |buffer| == BUFFER_SIZE && n <= BUFFER_SIZE
    ensures Determined(buffer, n) <==> !EndsInPorts(buffer, n)
  {
    hide ReadPacket;
    if EndsInPorts(buffer, n) {
      var mine, other := ReadsStale(buffer, n);
    } else {
      forall other: seq<Byte> | |other| == BUFFER_SIZE && other[..n] == buffer[..n]
        ensures ReadPacket(other, n) == ReadPacket(buffer, n)
      {
        ReadsReceived(buffer, other, n);
      }
    }
  }

  /** An input that fails it: 60 bytes, all of them IP header. The server takes them for an empty message from
      whatever port two older bytes spell. */
  lemma StalePort(ip: seq<Byte>, port: seq<Byte>) returns (received: seq<Byte>, buffer: seq<Byte>)
    requires |ip| == 4 && |port| == 2
    ensures |received| == 60 && received == [79 as char] + Zeros(11) + ip + Zeros(44)
    ensures |buffer| == BUFFER_SIZE && buffer[..60] == received
    ensures ReadPacket(buffer, 60) == Data(Client(ip, port), [])
  {
    hide DataLength;
    received := [79 as char] + Zeros(11) + ip + Zeros(44);
    buffer := received + port + WordBytes(SERVER_PORT) + Zeros(BUFFER_SIZE - 64);
    DataLengthExact(60, 60);
    assert buffer[12..16] == ip && buffer[60..62] == port;
    assert buffer[62] == WordBytes(SERVER_PORT)[0] && buffer[63] == WordBytes(SERVER_PORT)[1];
  }

  function Zeros(n: nat): (s: seq<Byte>)
    ensures |s| == n
  {
    seq(n, _ => 0 as char)
  }

  /** A packet as RFC 791 and RFC 768 lay it out: version 4 and the header length in 32-bit words, eleven bytes
      the server does not look at, the two addresses, the options, the ports, the Length and Checksum fields,
      the data. */
  function PacketBytes(ihl: nat, fields: seq<Byte>, c: Client, dest: seq<Byte>, options: seq<Byte>,
                       hi: Byte, lo: Byte, lengthAndCheck: seq<Byte>, data: seq<Byte>): seq<Byte>
    requires 5 <= ihl <= 15
  {
    [(4 * 16 + ihl) as char] + fields + c.ip + dest + options + c.port + [hi, lo] + lengthAndCheck + data
  }

  /** The server reads any such packet back, with any options and whatever is left in the buffer behind it:
      it answers only to port 8888, most significant byte first, and takes exactly the five bytes CLOSE as a
      farewell. */
  lemma PacketRoundTrip(ihl: nat, fields: seq<Byte>, c: Client, dest: seq<Byte>, options: seq<Byte>,
                        hi: Byte, lo: Byte, lengthAndCheck: seq<Byte>, data: seq<Byte>, junk: seq<Byte>)
    requires |fields| == 11 && |c.ip| == |dest| == |lengthAndCheck| == 4 && |c.port| == 2
    requires 5 <= ihl <= 15 && |options| == 4 * ihl - 20
    requires |PacketBytes(ihl, fields, c, dest, options, hi, lo, lengthAndCheck, data) + junk| == 65536
    ensures var packet := PacketBytes(ihl, fields, c, dest, options, hi, lo, lengthAndCheck, data);
      ReadPacket(packet + junk, |packet|) ==
        if hi as int * 256 + lo as int != 8888 then Dropped else if data == "CLOSE" then Close(c) else Data(c, data)
  {
    hide DataLength;
    var first: Byte := (4 * 16 + ihl) as char;
    HeaderLengthIs(ihl);
    var packet := PacketBytes(ihl, fields, c, dest, options, hi, lo, lengthAndCheck, data);
    var buffer := packet + junk;
    var h := HeaderLength(first);
    var header := [first] + fields + c.ip + dest + options;
    hide HeaderLength;
    assert buffer == header + (c.port + [hi, lo] + lengthAndCheck) + data + junk;
    HeaderAt([first] + fields, c.ip, dest + options, header);
    UdpAt(header, c.port, [hi, lo], lengthAndCheck, data, junk);
    assert buffer[12..16] == header[12..16] && buffer[0] == header[0];
    DataLengthExact(|packet|, h);
  }

  lemma HeaderLengthIs(ihl: nat)
    requires 5 <= ihl <= 15
    ensures HeaderLength((4 * 16 + ihl) as char) == 4 * ihl
  {
  }

  lemma HeaderAt(start: seq<Byte>, ip: seq<Byte>, rest: seq<Byte>, header: seq<Byte>)
    requires |start| == 12 && |ip| == 4 && header == start + ip + rest
    ensures header[0] == start[0] && header[12..16] == ip
  {
  }

  lemma UdpAt(header: seq<Byte>, source: seq<Byte>, dest: seq<Byte>, rest: seq<Byte>, data: seq<Byte>, junk: seq<Byte>)
    requires |source| == |dest| == 2 && |rest| == 4
    ensures var buffer := header + (source + dest + rest) + data + junk; var h := |header|;
      && buffer[h..h + 2] == source && buffer[h + 2] == dest[0] && buffer[h + 3] == dest[1]
      && buffer[h + UDP_HEADER..h + UDP_HEADER + |data|] == data
  {
    var udp := source + dest + rest;
    var buffer := header + udp + data + junk;
    var h := |header|;
    assert buffer[h..h + 2] == udp[..2] && buffer[h + 2] == udp[2] && buffer[h + 3] == udp[3];
  }

  /** The reply: the data, a space and the number. */
  function Payload(data: seq<Byte>, counter: nat): seq<Byte> {
    data + " " + Decimal(counter)
  }

  /** Whether `response_data` has room for it. */
  predicate Fits(data: seq<Byte>, counter: nat) {
    |data| + 1 + |Decimal(counter)| < BUFFER_SIZE
  }

  /** `sendbuf`; the Length field keeps 16 bits of the length. */
  function Datagram(c: Client, data: seq<Byte>, counter: nat): seq<Byte> {
    var payload := Payload(data, counter);
    WordBytes(SERVER_PORT) + c.port + WordBytes((UDP_HEADER + |payload|) % 0x1_0000) + WordBytes(0) + payload
  }

  /** For every packet IPv4 can carry and every int counter the reply fits both buffers, so it is never
      refused as too large, and its Length field is its true length. */
  lemma ReplyFits(buffer: seq<Byte>, n: nat, counter: nat)
    requires |buffer| == BUFFER_SIZE && n <= MAX_PACKET && counter <= INT_MAX && ReadPacket(buffer, n).Data?
    ensures var p := ReadPacket(buffer, n); var d := Datagram(p.client, p.data, counter);
      && Fits(p.data, counter)
      && |d| == 8 + |Payload(p.data, counter)| <= 65536
      && d[0] as int * 256 + d[1] as int == 8888 && d[2..4] == p.client.port
      && d[4] as int * 256 + d[5] as int == |d|
      && d[6] as int == d[7] as int == 0 && d[8..] == Payload(p.data, counter)
  {
    IntDigits(counter);
    PortOf(buffer, n);
    hide ReadPacket, WordBytes, Datagram, Payload;
    var p := ReadPacket(buffer, n);
    PayloadLength(p.data, counter);
    DatagramFields(p.client, p.data, counter);
  }

  lemma PortOf(buffer: seq<Byte>, n: nat)
    requires |buffer| == BUFFER_SIZE && n <= MAX_PACKET && ReadPacket(buffer, n).Data?
    ensures |ReadPacket(buffer, n).client.port| == 2
  {
  }

  lemma PayloadLength(data: seq<Byte>, counter: nat)
    ensures |Payload(data, counter)| == |data| + 1 + |Decimal(counter)|
  {
  }

  lemma ZeroBytes()
    ensures WordBytes(0)[0] as int == 0 && WordBytes(0)[1] as int == 0
  {
  }

  /** A datagram of less than 65536 bytes, field by field. */
  lemma DatagramFields(c: Client, data: seq<Byte>, counter: nat)
    requires |c.port| == 2 && UDP_HEADER + |Payload(data, counter)| < 0x1_0000
    ensures var d := Datagram(c, data, counter);
      && |d| == UDP_HEADER + |Payload(data, counter)|
      && d[0] as int * 256 + d[1] as int == 8888 && d[2..4] == c.port
      && d[4] as int * 256 + d[5] as int == |d|
      && d[6] as int == d[7] as int == 0 && d[8..] == Payload(data, counter)
  {
    hide WordBytes, Payload;
    var payload := Payload(data, counter);
    var len := WordBytes(UDP_HEADER + |payload|);
    var d := Datagram(c, data, counter);
    assert (UDP_HEADER + |payload|) % 0x1_0000 == UDP_HEADER + |payload|;
    assert d == WordBytes(SERVER_PORT) + c.port + len + WordBytes(0) + payload;
    assert d[0] == WordBytes(SERVER_PORT)[0] && d[1] == WordBytes(SERVER_PORT)[1];
    assert d[4] == len[0] && d[5] == len[1] && d[6] == WordBytes(0)[0] && d[7] == WordBytes(0)[1];
    ZeroBytes();
  }

  /** A reply fits an IPv4 packet if and only if data and digits are at most 65506 bytes: RFC 791 counts the
      20 bytes of the header the system puts in front into the 16-bit Total Length. */
  lemma ReplyFitsPacket(c: Client, data: seq<Byte>, counter: nat)
    requires |c.port| == 2
    ensures |Datagram(c, data, counter)| == UDP_HEADER + |data| + 1 + |Decimal(counter)|
    ensures IP_HEADER + |Datagram(c, data, counter)| <= MAX_PACKET <==> |data| + |Decimal(counter)| <= 65506
  {
    var payload := Payload(data, counter);
    var len := WordBytes((UDP_HEADER + |payload|) % 0x1_0000);
    assert Datagram(c, data, counter) == WordBytes(SERVER_PORT) + c.port + len + WordBytes(0) + payload;
  }

  /** There are packets IPv4 can carry whose first reply it cannot: the longest one, from any client. */
  lemma LongestIsAnsweredTooLong(c: Client) returns (buffer: seq<Byte>)
    requires |c.ip| == 4 && |c.port| == 2
    ensures |buffer| == BUFFER_SIZE && ReadPacket(buffer, MAX_PACKET).Data?
    ensures var p := ReadPacket(buffer, MAX_PACKET);
      p.client == c && IP_HEADER + |Datagram(c, p.data, 1)| > MAX_PACKET
  {
    hide ReadPacket, Datagram;
    var data := Zeros(MAX_PACKET - IP_HEADER - UDP_HEADER);
    var four := Zeros(4);
    var packet := PacketBytes(5, Zeros(11), c, four, [], 34 as char, 184 as char, four, data);
    buffer := packet + Zeros(1);
    PacketRoundTrip(5, Zeros(11), c, four, [], 34 as char, 184 as char, four, data, Zeros(1));
    ReplyFitsPacket(c, data, 1);
  }

  /** The index of the last space. */
  function LastSpace(s: string): int {
    if s == "" then -1 else if s[|s| - 1] == ' ' then |s| - 1 else LastSpace(s[..|s| - 1])
  }

  lemma {:induction false} LastSpaceAt(a: string, b: string)
    requires forall i :: 0 <= i < |b| ==> b[i] != ' '
    ensures LastSpace(a + " " + b) == |a|
  {
    var s := a + " " + b;
    if b != "" {
      assert s[|s| - 1] == b[|b| - 1];
      assert s[..|s| - 1] == a + " " + b[..|b| - 1];
      LastSpaceAt(a, b[..|b| - 1]);
    }
  }

  /** A client that splits the reply at its last space gets its data and the number back, whatever
      spaces or digits the data ends in. */
  lemma ReplyRoundTrip(data: seq<Byte>, counter: nat)
    ensures var s := Payload(data, counter); var i := LastSpace(s);
      && 0 <= i < |s| && s[..i] == data
      && Digits(s[i + 1..]) && Value(s[i + 1..]) == counter && |s| > i + 1
      && (s[i + 1] as int == 48 ==> counter == 0 && |s| == i + 2)
      && s[i] as int == 32 && ScanInt(s[i + 1..]) == Some((counter as int, ""))
  {
    var digits := Decimal(counter);
    var s := Payload(data, counter);
    assert s == data + " " + digits;
    assert forall i :: 0 <= i < |digits| ==> IsDigit(digits[i]);
    LastSpaceAt(data, digits);
    assert s[|data| + 1..] == digits;
    DecimalIsValue(counter);
    assert digits == digits + "";
    ScanIntOf(counter, "");
  }
}
