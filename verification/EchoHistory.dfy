/** What the numbers of the echo server say over a whole run: which messages are counted, and which numbers
    go out to the clients. */
module EchoHistory {
  import opened Text
  import opened EchoPackets
  import opened EchoServer

  /** The server's map after a sequence of packets. */
  function Run(ps: seq<Packet>): map<Client, nat> {
    if ps == [] then map[] else Serve(Run(ps[..|ps| - 1]), ps[|ps| - 1])
  }

  /** What the server did with packet `i` of a run. */
  function Reply(ps: seq<Packet>, i: nat): Outcome
    requires i < |ps|
  {
    Answer(Run(ps[..i]), ps[i])
  }

  /** The messages of client `c` since its last CLOSE that were not refused, in order. */
  function Counted(ps: seq<Packet>, c: Client): seq<seq<Byte>> {
    if ps == [] then []
    else
      var init, p := ps[..|ps| - 1], ps[|ps| - 1];
      if p == Close(c) then []
      else Counted(init, c) + if p.Data? && p.client == c && !Reply(ps, |ps| - 1).Refused? then [p.data] else []
  }

  /** The numbers the server has given them, whether or not the reply could be sent. */
  function Given(ps: seq<Packet>, c: Client): seq<nat> {
    if ps == [] then []
    else
      var init := ps[..|ps| - 1];
      var r := Reply(ps, |ps| - 1);
      if ps[|ps| - 1] == Close(c) then []
      else Given(init, c) + if (r.Sent? || r.Unsent?) && r.client == c then [r.counter] else []
  }

  /** The numbers that went out to client `c` since its last CLOSE, in order. */
  function Numbers(ps: seq<Packet>, c: Client): seq<nat> {
    if ps == [] then []
    else
      var init := ps[..|ps| - 1];
      var r := Reply(ps, |ps| - 1);
      if ps[|ps| - 1] == Close(c) then []
      else Numbers(init, c) + if r.Sent? && r.client == c then [r.counter] else []
  }

  /** Packets no longer than IPv4 can carry, from 16-bit ports, and no more of them than an int can count. */
  ghost predicate Carried(ps: seq<Packet>) {
    && |ps| <= INT_MAX
    && forall i :: 0 <= i < |ps| ==> Short(ps[i])
  }

  predicate Short(p: Packet) {
    p.Data? ==> |p.client.port| == 2 && |p.data| <= MAX_PACKET - IP_HEADER - UDP_HEADER
  }

  function CountOf(m: map<Client, nat>, c: Client): nat {
    if c in m then m[c] else 0
  }

  /** Everyone a packet ever came from. */
  function Heard(ps: seq<Packet>): set<Client> {
    if ps == [] then {}
    else Heard(ps[..|ps| - 1]) + if ps[|ps| - 1].Dropped? then {} else {ps[|ps| - 1].client}
  }

  /** The clients that have had a message counted since their last CLOSE. */
  function Served(ps: seq<Packet>): set<Client> {
    set c | c in Heard(ps) && Counted(ps, c) != []
  }

  /** 1, 2, ..., k. */
  function UpTo(k: nat): seq<nat> {
    seq(k, i => i + 1)
  }

  /** Whether the reply with number `n` to `data` can be sent. */
  predicate GoesOut(data: seq<Byte>, n: nat) {
    |data| + |Decimal(n)| <= 65506
  }

  /** Of the numbers 1, ..., k for k messages, those whose reply can be sent. */
  function GoingOut(messages: seq<seq<Byte>>): seq<nat> {
    if messages == [] then []
    else
      var k := |messages|;
      GoingOut(messages[..k - 1]) + if GoesOut(messages[k - 1], k) then [k] else []
  }

  // ---------- one packet ----------

  lemma CarriedBefore(ps: seq<Packet>)
    requires Carried(ps) && ps != []
    ensures Carried(ps[..|ps| - 1]) && Short(ps[|ps| - 1])
  {
  }

  /** Every packet read from a datagram IPv4 can carry is short in this sense. */
  lemma ReceivedIsShort(buffer: seq<Byte>, n: nat)
    requires |buffer| == BUFFER_SIZE && n <= MAX_PACKET
    ensures Short(ReadPacket(buffer, n))
  {
  }

  lemma ShortFits(data: seq<Byte>, counter: nat)
    requires |data| <= MAX_PACKET - IP_HEADER - UDP_HEADER && counter <= INT_MAX
    ensures Fits(data, counter)
  {
    IntDigits(counter);
  }

  /** What one packet does to the count of a client. */
  lemma ServeCounts(m: map<Client, nat>, p: Packet, c: Client)
    requires c in m ==> m[c] > 0
    ensures c in Serve(m, p) ==> Serve(m, p)[c] > 0
    ensures CountOf(Serve(m, p), c) <= CountOf(m, c) + 1
  {
  }

  /** The answer to a message: refused, or counted with the next number, which goes out if it can. */
  lemma AnswerIs(m: map<Client, nat>, p: Packet)
    requires p.Data? && Short(p) && CountOf(m, p.client) < INT_MAX
    ensures var r := Answer(m, p); var n := CountOf(m, p.client) + 1;
      if p.client !in m && |m| >= MAX_CLIENTS then r == Refused
      else if GoesOut(p.data, n) then r.Sent? && r.client == p.client && r.counter == n
      else r == Unsent(p.client, n)
  {
    hide Fits, Datagram, GoesOut;
    ShortFits(p.data, CountOf(m, p.client) + 1);
    SentExactly(p.client, p.data, CountOf(m, p.client) + 1);
  }

  lemma SentExactly(c: Client, data: seq<Byte>, n: nat)
    requires |c.port| == 2
    ensures if GoesOut(data, n) then Sending(c, data, n) == Sent(c, n, Datagram(c, data, n))
      else Sending(c, data, n) == Unsent(c, n)
  {
    hide Datagram;
    ReplyFitsPacket(c, data, n);
  }

  /** A client's count goes up by one exactly when its message is counted. */
  lemma ServeIs(m: map<Client, nat>, p: Packet, c: Client)
    requires p != Close(c) && (c in m ==> m[c] > 0)
    ensures CountOf(Serve(m, p), c) ==
      CountOf(m, c) + if p.Data? && p.client == c && (c in m || |m| < MAX_CLIENTS) then 1 else 0
  {
  }

  lemma OtherAnswers(m: map<Client, nat>, p: Packet, c: Client)
    requires !(p.Data? && p.client == c)
    ensures var r := Answer(m, p); (r.Sent? || r.Unsent?) ==> r.client != c
  {
    hide Fits, Datagram, Serve;
  }

  lemma {:induction false} CountsArePositive(ps: seq<Packet>, c: Client)
    ensures c in Run(ps) ==> Run(ps)[c] > 0
    ensures CountOf(Run(ps), c) <= |ps|
  {
    if ps != [] {
      CountsArePositive(ps[..|ps| - 1], c);
      ServeCounts(Run(ps[..|ps| - 1]), ps[|ps| - 1], c);
    }
  }

  lemma UpToNext(k: nat)
    ensures UpTo(0) == [] && UpTo(k) + [k + 1] == UpTo(k + 1)
  {
  }

  lemma GoingOutNext(messages: seq<seq<Byte>>, data: seq<Byte>)
    ensures GoingOut(messages + [data]) ==
      GoingOut(messages) + if GoesOut(data, |messages| + 1) then [|messages| + 1] else []
  {
    assert (messages + [data])[..|messages|] == messages;
  }

  // ---------- the numbers ----------

  /** What a run means for client `c`. */
  ghost predicate Agrees(ps: seq<Packet>, c: Client) {
    var k := CountOf(Run(ps), c);
    && |Counted(ps, c)| == k
    && Given(ps, c) == UpTo(k)
    && Numbers(ps, c) == GoingOut(Counted(ps, c))
  }

  /** One packet more, of any kind. */
  lemma OneMore(ps: seq<Packet>, c: Client)
    requires Carried(ps) && ps != [] && Agrees(ps[..|ps| - 1], c)
    ensures Agrees(ps, c)
  {
    hide Serve, Answer, UpTo, Carried, GoingOut, GoesOut;
    var init, p := ps[..|ps| - 1], ps[|ps| - 1];
    var m := Run(init);
    CarriedBefore(ps);
    CountsArePositive(init, c);
    UpToNext(CountOf(m, c));
    if p == Close(c) {
      ClosedCount(m, c);
    } else {
      ServeIs(m, p, c);
      assert Counted(init, c) + [] == Counted(init, c);
      if p.Data? && p.client == c {
        CountBelow(ps);
        AnswerIs(m, p);
        GoingOutNext(Counted(init, c), p.data);
      } else {
        OtherAnswers(m, p, c);
      }
    }
  }

  lemma CountBelow(ps: seq<Packet>)
    requires Carried(ps) && ps != []
    ensures ps[|ps| - 1].Data? ==> CountOf(Run(ps[..|ps| - 1]), ps[|ps| - 1].client) < INT_MAX
  {
    if ps[|ps| - 1].Data? {
      CountsArePositive(ps[..|ps| - 1], ps[|ps| - 1].client);
    }
  }

  lemma ClosedCount(m: map<Client, nat>, c: Client)
    ensures CountOf(Serve(m, Close(c)), c) == 0 && UpTo(0) == [] && GoingOut([]) == []
  {
  }

  lemma {:induction false} RunAgrees(ps: seq<Packet>, c: Client)
    requires Carried(ps)
    ensures Agrees(ps, c)
  {
    hide Agrees, Carried;
    if ps == [] {
      NothingYet(c);
    } else {
      CarriedBefore(ps);
      RunAgrees(ps[..|ps| - 1], c);
      OneMore(ps, c);
    }
  }

  lemma NothingYet(c: Client)
    ensures Agrees([], c)
  {
  }

  /** Over any run, the numbers given to a client's messages since its last CLOSE are 1, 2, ..., k without a
      gap or a repetition; k is how many of them were not refused, and the count the server holds. */
  lemma NumbersAreGapless(ps: seq<Packet>, c: Client)
    requires Carried(ps)
    ensures var k := CountOf(Run(ps), c); Given(ps, c) == UpTo(k) && |Counted(ps, c)| == k
  {
    hide Run, Given, Counted, UpTo, Numbers, GoingOut;
    RunAgrees(ps, c);
  }

  lemma {:induction false} GoingOutBelow(messages: seq<seq<Byte>>)
    ensures |GoingOut(messages)| <= |messages|
    ensures GoingOut(messages) == UpTo(|messages|) <==> forall i :: 0 <= i < |messages| ==> GoesOut(messages[i], i + 1)
    ensures |GoingOut(messages)| == |messages| ==> GoingOut(messages) == UpTo(|messages|)
  {
    hide GoesOut;
    if messages != [] {
      var k := |messages|;
      GoingOutBelow(messages[..k - 1]);
      UpToNext(k - 1);
      assert forall i :: 0 <= i < k - 1 ==> messages[..k - 1][i] == messages[i];
    }
  }

  /** The numbers that go out are those, in order, whose reply can be sent. They are 1, ..., k, with k the
      stored count, if and only if every counted message is short enough: its data and the digits of its
      number are at most 65506 bytes. Otherwise the client sees a gap, or misses the last numbers. */
  lemma NumbersThatGoOut(ps: seq<Packet>, c: Client)
    requires Carried(ps)
    ensures var k := CountOf(Run(ps), c); var ms := Counted(ps, c);
      && |ms| == k && Numbers(ps, c) == GoingOut(ms)
      && (Numbers(ps, c) == UpTo(k) <==> forall i :: 0 <= i < k ==> |ms[i]| + |Decimal(i + 1)| <= 65506)
  {
    hide Run, Given, Counted, UpTo, Numbers, GoingOut;
    RunAgrees(ps, c);
    GoingOutBelow(Counted(ps, c));
  }

  /** The gap is real: after the longest message IPv4 can carry and an empty one, the only number that has
      gone out is 2; after the first alone the client holds a slot and has been sent nothing. */
  lemma GapIsReachable(c: Client) returns (ps: seq<Packet>)
    requires |c.port| == 2
    ensures |ps| == 2 && Carried(ps) && Numbers(ps[..1], c) == [] && c in Run(ps[..1]) && Numbers(ps, c) == [2]
    ensures CountOf(Run(ps), c) == 2
  {
    var long := Data(c, Zeros(MAX_PACKET - IP_HEADER - UDP_HEADER));
    ps := [long, Data(c, [])];
    hide Answer, Serve, Datagram, Fits;
    assert ps[..1] == [long] && ps[..1][..0] == [];
    DigitsOf();
    EmptyRun(c);
    AnswerIs(map[], long);
    ServeIs(map[], long, c);
    FirstCounts(c, long);
    AnswerIs(Run([long]), Data(c, []));
    ServeIs(Run([long]), Data(c, []), c);
  }

  lemma DigitsOf()
    ensures |Decimal(1)| == 1 && |Decimal(2)| == 1
  {
  }

  lemma EmptyRun(c: Client)
    ensures Run([]) == map[] && Numbers([], c) == []
  {
  }

  lemma FirstCounts(c: Client, p: Packet)
    requires p.Data? && p.client == c
    ensures Run([p]) == map[c := 1]
  {
    assert [p][..0] == [];
  }

  lemma {:induction false} HeardBefore(ps: seq<Packet>, c: Client)
    requires Counted(ps, c) != []
    ensures c in Heard(ps)
  {
    if ps != [] {
      if Counted(ps[..|ps| - 1], c) != [] {
        HeardBefore(ps[..|ps| - 1], c);
      }
    }
  }

  /** The server's table holds exactly the clients with a message counted since their last CLOSE, each with
      the number of such messages, and never more than 100 of them. */
  lemma CountersMatchHistory(ps: seq<Packet>)
    requires Carried(ps)
    ensures Run(ps).Keys == Served(ps) && |Served(ps)| == |Run(ps)| <= 100
    ensures forall c :: c in Run(ps) ==> Run(ps)[c] == |Counted(ps, c)| > 0
  {
    hide Run, Counted, Heard, Given, UpTo;
    forall c
      ensures c in Run(ps) <==> c in Served(ps)
      ensures c in Run(ps) ==> Run(ps)[c] == |Counted(ps, c)| > 0
    {
      CountsArePositive(ps, c);
      NumbersAreGapless(ps, c);
      if Counted(ps, c) != [] {
        HeardBefore(ps, c);
      }
    }
    assert Run(ps).Keys == Served(ps);
    RunSize(ps);
  }

  lemma ServeSize(m: map<Client, nat>, p: Packet)
    requires |m| <= MAX_CLIENTS
    ensures |Serve(m, p)| <= MAX_CLIENTS
  {
    if p.Close? && p.client in m {
      assert (m - {p.client}).Keys == m.Keys - {p.client};
    } else if p.Close? {
      assert m - {p.client} == m;
    }
  }

  lemma {:induction false} RunSize(ps: seq<Packet>)
    ensures |Run(ps)| <= MAX_CLIENTS
  {
    if ps != [] {
      RunSize(ps[..|ps| - 1]);
      ServeSize(Run(ps[..|ps| - 1]), ps[|ps| - 1]);
    }
  }

  /** What a client can expect of its next message: it is refused exactly when none of its messages has been
      counted since its last CLOSE and 100 others have had one; otherwise it is counted with the next number,
      which goes out exactly when the data and its digits are at most 65506 bytes. */
  lemma RepliesCountMessages(ps: seq<Packet>, p: Packet)
    requires p.Data? && Carried(ps + [p])
    ensures var r := Reply(ps + [p], |ps|); var k := |Counted(ps, p.client)|;
      if k == 0 && |Served(ps)| == 100 then r.Refused?
      else if |p.data| + |Decimal(k + 1)| <= 65506 then r.Sent? && r.client == p.client && r.counter == k + 1
      else r == Unsent(p.client, k + 1)
  {
    hide Run, Counted, Served, Carried, Given, UpTo, Answer;
    var all := ps + [p];
    assert all[..|all| - 1] == ps && all[..|ps|] == ps && all[|all| - 1] == p;
    CarriedBefore(all);
    CountersMatchHistory(ps);
    NumbersAreGapless(ps, p.client);
    CountsArePositive(ps, p.client);
    CountBelow(all);
    AnswerIs(Run(ps), p);
  }

  /** No packet IPv4 can carry is ever answered with "Response too large". */
  lemma NeverTooLarge(m: map<Client, nat>, buffer: seq<Byte>, n: nat)
    requires |buffer| == BUFFER_SIZE && n <= MAX_PACKET && forall c :: c in m ==> m[c] < INT_MAX
    ensures !Answer(m, ReadPacket(buffer, n)).TooLarge?
  {
    hide ReadPacket, Fits, Datagram;
    var p := ReadPacket(buffer, n);
    if p.Data? && p.client in Serve(m, p) {
      ReplyFits(buffer, n, Serve(m, p)[p.client]);
    }
  }
}
