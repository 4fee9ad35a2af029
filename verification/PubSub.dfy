/** Publishers, subscribers, the broker and the message queue as one system: every client may put
    requests on the queue at any time, the broker handles them one by one, and each subscriber takes
    the messages of its own type. */
module PubSub {
  import opened Text
  import opened Commands
  import opened Lists
  import opened Subscriptions
  import opened Broker

  const BROKER_TYPE := 1

  /** The broker waits for a message, or is still forwarding one to the rest of the recipients. */
  datatype BrokerPc = Idle | Forwarding(text: string, rest: seq<int>)

  /** `queue` is the System V queue, `received` what each subscriber has printed; `issued` and `handled`
      record the requests put on the queue and how many of them the broker has begun to handle. */
  datatype System = System(
    queue: seq<Msg>,
    table: Table,
    broker: BrokerPc,
    received: map<int, seq<string>>,
    issued: seq<Request>,
    handled: nat)

  const START := System([], [], Idle, map[], [], 0)

  function Received(s: System, pid: int): seq<string> {
    if pid in s.received then s.received[pid] else []
  }

  /** `msgrcv` takes the first message of the type it asks for. */
  function FirstOf(queue: seq<Msg>, mtype: int): (i: nat)
    ensures i <= |queue|
    ensures forall j :: 0 <= j < i ==> queue[j].mtype != mtype
    ensures i < |queue| ==> queue[i].mtype == mtype
  {
    FirstIndex(queue, (m: Msg) => m.mtype == mtype)
  }

  // ---------- the steps ----------

  /** A client sends a request to the broker; a publisher and a subscriber do it the same way. */
  function Issue(s: System, r: Request): System {
    s.(queue := s.queue + [Msg(BROKER_TYPE, Message(r))], issued := s.issued + [r])
  }

  /** The broker takes a message and acts on it, or forwards the one it holds to the next recipient. */
  function BrokerStep(s: System): System {
    match s.broker
    case Idle =>
      var i := FirstOf(s.queue, BROKER_TYPE);
      if i == |s.queue| then s
      else
        var text := s.queue[i].text;
        var c := Parse(text);
        s.(queue := Removed(s.queue, i),
           table := After(s.table, c),
           broker := if c.DoSend? then Forwarding(text, Recipients(s.table, c.topic)) else Idle,
           handled := s.handled + 1)
    case Forwarding(text, rest) =>
      if rest == [] then s.(broker := Idle)
      else s.(queue := s.queue + [Msg(rest[0], text)], broker := Forwarding(text, rest[1..]))
  }

  /** Subscriber `pid` prints its next message, if there is one. */
  function ReceiveStep(s: System, pid: int): System {
    var i := FirstOf(s.queue, pid);
    if i == |s.queue| then s
    else s.(queue := Removed(s.queue, i), received := s.received[pid := Received(s, pid) + [s.queue[i].text]])
  }

  datatype Choice = ClientSends(request: Request) | BrokerMoves | SubscriberReads(pid: int)

  function Step(s: System, c: Choice): System {
    match c
    case ClientSends(r) => Issue(s, r)
    case BrokerMoves => BrokerStep(s)
    case SubscriberReads(pid) => if pid > BROKER_TYPE then ReceiveStep(s, pid) else s
  }

  function Run(schedule: seq<Choice>): System {
    if schedule == [] then START else Step(Run(schedule[..|schedule| - 1]), schedule[|schedule| - 1])
  }

  ghost predicate GoodSchedule(schedule: seq<Choice>) {
    forall i :: 0 <= i < |schedule| && schedule[i].ClientSends? ==> GoodRequest(schedule[i].request)
  }

  // ---------- what a subscriber should receive ----------

  /** The reference: the topics of each process after the requests so far. */
  function Wanted(rs: seq<Request>): map<int, set<string>> {
    if rs == [] then map[]
    else
      var m := Wanted(rs[..|rs| - 1]);
      match rs[|rs| - 1]
      case Subscribe(pid, topic) => m[pid := (if pid in m then m[pid] else {}) + {topic}]
      case Unsubscribe(pid, topic) => if pid in m then m[pid := m[pid] - {topic}] else m
      case Publish(_, _, _) => m
  }

  predicate Wants(m: map<int, set<string>>, pid: int, topic: string) {
    pid in m && topic in m[pid]
  }

  /** The messages published on a topic while `pid` was subscribed to it, in order. */
  function Deliveries(rs: seq<Request>, pid: int): seq<string> {
    if rs == [] then []
    else
      var init, r := rs[..|rs| - 1], rs[|rs| - 1];
      Deliveries(init, pid) + if r.Publish? && Wants(Wanted(init), pid, r.topic) then [Message(r)] else []
  }

  // ---------- the invariant ----------

  /** The texts of one type in the queue, in order. */
  function TextsOf(queue: seq<Msg>, mtype: int): seq<string> {
    if queue == [] then []
    else (if queue[0].mtype == mtype then [queue[0].text] else []) + TextsOf(queue[1..], mtype)
  }

  function Messages(rs: seq<Request>): seq<string> {
    if rs == [] then [] else [Message(rs[0])] + Messages(rs[1..])
  }

  /** The message the broker has still to forward to `pid`. */
  function Pending(b: BrokerPc, pid: int): seq<string> {
    if b.Forwarding? && pid in b.rest then [b.text] else []
  }

  ghost predicate Once(b: BrokerPc) {
    b.Forwarding? ==> forall i, j :: 0 <= i < j < |b.rest| ==> b.rest[i] != b.rest[j]
  }

  ghost predicate Inv(s: System) {
    && s.handled <= |s.issued|
    && (forall r :: r in s.issued ==> GoodRequest(r))
    && TextsOf(s.queue, BROKER_TYPE) == Messages(s.issued[s.handled..])
    && Unique(s.table) && Abs(s.table) == Wanted(s.issued[..s.handled])
    && Once(s.broker) && (s.broker.Forwarding? ==> BROKER_TYPE !in s.broker.rest)
    && (forall pid :: pid in Abs(s.table) ==> pid > BROKER_TYPE)
    && forall pid :: pid > BROKER_TYPE ==>
      Received(s, pid) + TextsOf(s.queue, pid) + Pending(s.broker, pid) == Deliveries(s.issued[..s.handled], pid)
  }

  // ---------- the queue ----------

  lemma TextsCons(m: Msg, queue: seq<Msg>, mtype: int)
    ensures TextsOf([m] + queue, mtype) == (if m.mtype == mtype then [m.text] else []) + TextsOf(queue, mtype)
  {
    assert ([m] + queue)[1..] == queue;
  }

  lemma {:induction false} TextsAppend(queue: seq<Msg>, m: Msg, mtype: int)
    ensures TextsOf(queue + [m], mtype) == TextsOf(queue, mtype) + if m.mtype == mtype then [m.text] else []
  {
    if queue == [] {
      assert queue + [m] == [m];
    } else {
      var tail := queue[1..] + [m];
      assert queue + [m] == [queue[0]] + tail;
      TextsCons(queue[0], tail, mtype);
      TextsAppend(queue[1..], m, mtype);
    }
  }

  lemma {:induction false} TextsTake(queue: seq<Msg>, i: nat, mtype: int)
    requires i < |queue| && forall j :: 0 <= j < i ==> queue[j].mtype != queue[i].mtype
    ensures TextsOf(queue, mtype) ==
      (if queue[i].mtype == mtype then [queue[i].text] else []) + TextsOf(Removed(queue, i), mtype)
  {
    if i == 0 {
      assert Removed(queue, 0) == queue[1..];
    } else {
      TextsTake(queue[1..], i - 1, mtype);
      assert Removed(queue, i)[1..] == Removed(queue[1..], i - 1);
    }
  }

  lemma {:induction false} TextsNone(queue: seq<Msg>, mtype: int)
    requires FirstOf(queue, mtype) == |queue|
    ensures TextsOf(queue, mtype) == []
  {
    if queue != [] {
      TextsNone(queue[1..], mtype);
    }
  }

  lemma {:induction false} MessagesAppend(rs: seq<Request>, r: Request)
    ensures Messages(rs + [r]) == Messages(rs) + [Message(r)]
  {
    hide Message;
    if rs == [] {
      assert rs + [r] == [r];
    } else {
      assert (rs + [r])[1..] == rs[1..] + [r];
      MessagesAppend(rs[1..], r);
    }
  }

  // ---------- the steps keep the invariant ----------

  lemma IssueKeeps(s: System, r: Request)
    requires Inv(s) && GoodRequest(r)
    ensures Inv(Issue(s, r))
  {
    hide Abs, Unique, Message, Messages, GoodRequest, Deliveries, Wanted, TextsOf, Pending, Once;
    var t := Issue(s, r);
    var m := Msg(BROKER_TYPE, Message(r));
    TextsAppend(s.queue, m, BROKER_TYPE);
    MessagesAppend(s.issued[s.handled..], r);
    assert t.issued[t.handled..] == s.issued[s.handled..] + [r];
    assert t.issued[..t.handled] == s.issued[..s.handled];
    forall pid | pid > BROKER_TYPE ensures TextsOf(t.queue, pid) == TextsOf(s.queue, pid) {
      TextsAppend(s.queue, m, pid);
    }
  }

  /** The next request for the broker is the oldest one not yet handled. */
  lemma NextRequest(s: System)
    requires Inv(s) && FirstOf(s.queue, BROKER_TYPE) < |s.queue|
    ensures var i := FirstOf(s.queue, BROKER_TYPE);
      && s.handled < |s.issued|
      && s.queue[i].text == Message(s.issued[s.handled])
      && TextsOf(Removed(s.queue, i), BROKER_TYPE) == Messages(s.issued[s.handled + 1..])
      && forall pid :: pid != BROKER_TYPE ==> TextsOf(Removed(s.queue, i), pid) == TextsOf(s.queue, pid)
  {
    var i := FirstOf(s.queue, BROKER_TYPE);
    TextsTake(s.queue, i, BROKER_TYPE);
    var rest := Messages(s.issued[s.handled..]);
    assert rest[0] == s.queue[i].text && rest[1..] == TextsOf(Removed(s.queue, i), BROKER_TYPE);
    assert s.issued[s.handled..][1..] == s.issued[s.handled + 1..];
    forall pid | pid != BROKER_TYPE ensures TextsOf(Removed(s.queue, i), pid) == TextsOf(s.queue, pid) {
      TextsTake(s.queue, i, pid);
    }
  }

  lemma WantedStep(rs: seq<Request>, k: nat)
    requires k < |rs|
    ensures rs[..k + 1][..k] == rs[..k] && rs[..k + 1][k] == rs[k]
  {
  }

  /** The table follows the reference map. */
  lemma TableFollows(t: Table, r: Request, m: map<int, set<string>>)
    requires Unique(t) && Abs(t) == m && GoodRequest(r)
    ensures var u := After(t, CommandOf(r));
      && Unique(u)
      && Abs(u) == match r
         case Subscribe(pid, topic) => m[pid := (if pid in m then m[pid] else {}) + {topic}]
         case Unsubscribe(pid, topic) => if pid in m then m[pid := m[pid] - {topic}] else m
         case Publish(_, _, _) => m
  {
    hide Abs, Unique;
    match r
    case Subscribe(pid, topic) => SubscribeRefines(t, pid, topic);
    case Unsubscribe(pid, topic) => UnsubscribeRefines(t, pid, topic);
    case Publish(_, _, _) =>
  }

  lemma AllDistinct(xs: seq<int>)
    requires forall x :: multiset(xs)[x] <= 1
    ensures forall i, j :: 0 <= i < j < |xs| ==> xs[i] != xs[j]
  {
    forall i, j | 0 <= i < j < |xs| ensures xs[i] != xs[j] {
      var x := xs[i];
      assert multiset(xs)[x] <= 1;
      assert xs == xs[..i] + [xs[i]] + xs[i + 1..];
      assert xs[j] in xs[i + 1..];
      assert multiset(xs) == multiset(xs[..i]) + multiset{x} + multiset(xs[i + 1..]);
    }
  }

  lemma RecipientsOnce(t: Table, topic: string)
    requires Unique(t) && topic != ""
    ensures forall pid :: pid in Recipients(t, topic) <==> Wants(Abs(t), pid, topic)
    ensures Once(Forwarding("", Recipients(t, topic)))
  {
    hide Abs, Unique;
    var rest := Recipients(t, topic);
    forall pid ensures multiset(rest)[pid] == if Wants(Abs(t), pid, topic) then 1 else 0 {
      SendReachesSubscribersOnce(t, topic, pid);
    }
    forall pid ensures pid in rest <==> Wants(Abs(t), pid, topic) {
      assert pid in rest <==> pid in multiset(rest);
    }
    AllDistinct(rest);
  }

  /** What the broker does with request `r` when it finds it first in the queue. */
  lemma TakeEffect(s: System)
    requires Inv(s) && s.broker.Idle? && FirstOf(s.queue, BROKER_TYPE) < |s.queue|
    ensures s.handled < |s.issued| && GoodRequest(s.issued[s.handled])
    ensures var r := s.issued[s.handled];
      BrokerStep(s) == s.(
        queue := Removed(s.queue, FirstOf(s.queue, BROKER_TYPE)),
        table := After(s.table, CommandOf(r)),
        broker := if r.Publish? then Forwarding(Message(r), Recipients(s.table, r.topic)) else Idle,
        handled := s.handled + 1)
  {
    hide Parse, Message, Abs, Unique, GoodTopic, After;
    NextRequest(s);
    assert s.issued[s.handled] in s.issued;
    RequestRoundTrip(s.issued[s.handled]);
  }

  /** A request changes the map of wishes and the deliveries as the broker changes its table and list
      of recipients. */
  lemma HandledOne(t: Table, rs: seq<Request>, k: nat)
    requires k < |rs| && GoodRequest(rs[k]) && Unique(t) && Abs(t) == Wanted(rs[..k])
    ensures var r := rs[k]; var u := After(t, CommandOf(r));
      var b := if r.Publish? then Forwarding(Message(r), Recipients(t, r.topic)) else Idle;
      && Unique(u) && Abs(u) == Wanted(rs[..k + 1]) && Once(b)
      && (forall pid :: pid in Abs(u) ==> pid in Abs(t) || pid == r.pid)
      && (r.Publish? ==> forall pid :: pid in Recipients(t, r.topic) ==> pid in Abs(t))
      && forall pid :: Deliveries(rs[..k + 1], pid) == Deliveries(rs[..k], pid) + Pending(b, pid)
  {
    hide Abs, Unique, Message, GoodTopic, Recipients;
    WantedStep(rs, k);
    TableFollows(t, rs[k], Wanted(rs[..k]));
    if rs[k].Publish? {
      assert rs[k].topic != "" by { TopicNotEmpty(rs[k]); }
      RecipientsOnce(t, rs[k].topic);
    }
  }

  lemma TakeKeeps(s: System)
    requires Inv(s) && s.broker.Idle? && FirstOf(s.queue, BROKER_TYPE) < |s.queue|
    ensures Inv(BrokerStep(s))
  {
    hide Abs, Unique, BrokerStep, Message, TextsOf, Messages, GoodTopic, Deliveries, Wanted, After, Recipients, Once;
    TakeEffect(s);
    NextRequest(s);
    HandledOne(s.table, s.issued, s.handled);
    var t := BrokerStep(s);
    forall pid | pid > BROKER_TYPE
      ensures Received(t, pid) + TextsOf(t.queue, pid) + Pending(t.broker, pid)
           == Deliveries(t.issued[..t.handled], pid)
    {
      assert Pending(s.broker, pid) == [];
      assert Received(s, pid) + TextsOf(s.queue, pid) + [] == Received(s, pid) + TextsOf(s.queue, pid);
    }
    assert t.broker.Forwarding? && BROKER_TYPE in t.broker.rest ==> BROKER_TYPE in Abs(s.table);
  }

  lemma TopicNotEmpty(r: Request)
    requires GoodRequest(r)
    ensures r.topic != ""
  {
  }

  lemma ForwardKeeps(s: System)
    requires Inv(s) && s.broker.Forwarding?
    ensures Inv(BrokerStep(s))
  {
    hide Abs, Unique, Message, Messages, GoodRequest, Deliveries, Wanted, TextsOf, Received, Pending, Once;
    var t := BrokerStep(s);
    var rest := s.broker.rest;
    if rest != [] {
      TextsAppend(s.queue, Msg(rest[0], s.broker.text), BROKER_TYPE);
      OnceLess(s.broker);
    }
    forall pid | pid > BROKER_TYPE
      ensures Received(t, pid) + TextsOf(t.queue, pid) + Pending(t.broker, pid)
           == Received(s, pid) + TextsOf(s.queue, pid) + Pending(s.broker, pid)
    {
      ForwardMoves(s, pid);
    }
    NothingOnce();
  }

  lemma OnceLess(b: BrokerPc)
    requires b.Forwarding? && Once(b) && b.rest != []
    ensures Once(Forwarding(b.text, b.rest[1..])) && b.rest[0] !in b.rest[1..]
  {
  }

  lemma NothingOnce()
    ensures Once(Idle)
  {
  }

  /** Forwarding moves one text from what is pending to the queue. */
  lemma ForwardMoves(s: System, pid: int)
    requires s.broker.Forwarding? && Once(s.broker)
    ensures var t := BrokerStep(s);
      Received(t, pid) + TextsOf(t.queue, pid) + Pending(t.broker, pid)
      == Received(s, pid) + TextsOf(s.queue, pid) + Pending(s.broker, pid)
  {
    hide TextsOf, Once;
    var text, rest := s.broker.text, s.broker.rest;
    if rest != [] {
      TextsAppend(s.queue, Msg(rest[0], text), pid);
      OnceLess(s.broker);
      assert rest == [rest[0]] + rest[1..];
      assert pid == rest[0] ==> Pending(s.broker, pid) == [text] && Pending(BrokerStep(s).broker, pid) == [];
    }
  }

  lemma ReceiveKeeps(s: System, reader: int)
    requires Inv(s) && reader > BROKER_TYPE
    ensures Inv(ReceiveStep(s, reader))
  {
    hide Abs, Unique, Message, Messages, GoodRequest, Deliveries, Wanted, Once, TextsOf, Received, ReceiveStep;
    var t := ReceiveStep(s, reader);
    ReceiveMoves(s, reader, BROKER_TYPE);
    forall pid | pid > BROKER_TYPE
      ensures Received(t, pid) + TextsOf(t.queue, pid) == Received(s, pid) + TextsOf(s.queue, pid)
    {
      ReceiveMoves(s, reader, pid);
    }
  }

  /** Receiving moves one text from the queue to the reader, and touches nothing else. */
  lemma ReceiveMoves(s: System, reader: int, pid: int)
    requires reader > BROKER_TYPE
    ensures var t := ReceiveStep(s, reader);
      && t == s.(queue := t.queue, received := t.received)
      && Received(t, pid) + TextsOf(t.queue, pid) == Received(s, pid) + TextsOf(s.queue, pid)
      && (pid != reader ==> TextsOf(t.queue, pid) == TextsOf(s.queue, pid))
  {
    hide TextsOf;
    var i := FirstOf(s.queue, reader);
    if i < |s.queue| {
      TextsTake(s.queue, i, pid);
    }
  }

  lemma {:induction false} RunInv(schedule: seq<Choice>)
    requires GoodSchedule(schedule)
    ensures Inv(Run(schedule))
  {
    if schedule != [] {
      var s := Run(schedule[..|schedule| - 1]);
      var c := schedule[|schedule| - 1];
      RunInv(schedule[..|schedule| - 1]);
      hide Inv;
      match c
      case ClientSends(r) => IssueKeeps(s, r);
      case BrokerMoves =>
        if s.broker.Forwarding? {
          ForwardKeeps(s);
        } else if FirstOf(s.queue, BROKER_TYPE) < |s.queue| {
          TakeKeeps(s);
        }
      case SubscriberReads(pid) =>
        if pid > BROKER_TYPE {
          ReceiveKeeps(s, pid);
        }
    }
  }

  // ---------- the result ----------

  /** In every run, what a subscriber has received is a prefix of the messages published on its topics
      while it was subscribed, in the order the broker handled them; what is missing is still in the
      queue or about to be forwarded. The broker handles the requests in the order they were sent. */
  lemma SubscribersReceiveWhatTheyWant(schedule: seq<Choice>, pid: int)
    requires GoodSchedule(schedule) && pid > BROKER_TYPE
    ensures var s := Run(schedule);
      && s.handled <= |s.issued|
      && Received(s, pid) <= Deliveries(s.issued[..s.handled], pid)
      && (s.queue == [] && s.broker.Idle? ==> s.handled == |s.issued| && Received(s, pid) == Deliveries(s.issued, pid))
  {
    RunInv(schedule);
    var s := Run(schedule);
    if s.queue == [] {
      assert Messages(s.issued[s.handled..]) == [];
      assert s.issued[..|s.issued|] == s.issued;
    }
  }

  // ---------- the texts a subscriber reads ----------

  /** A published line as a reader sees it: the publisher's process id in decimal, the topic, the text. */
  datatype Post = Post(sender: string, topic: string, text: string)

  function OrEmpty(o: Option<string>): string {
    if o.Some? then o.value else ""
  }

  /** What the fields of a message say. */
  function ReadPost(m: string): Post {
    Post(OrEmpty(FieldOf(m, 1)), OrEmpty(FieldOf(m, 2)), OrEmpty(AfterCommas(m, 3)))
  }

  function ReadPosts(messages: seq<string>): seq<Post> {
    if messages == [] then []
    else ReadPosts(messages[..|messages| - 1]) + [ReadPost(messages[|messages| - 1])]
  }

  /** The posts on a process's topics while it was subscribed, in order; a text too long for a message is cut
      to what makes the message 511 bytes long. */
  function Posts(rs: seq<Request>, pid: int): seq<Post> {
    if rs == [] then []
    else
      var init, r := rs[..|rs| - 1], rs[|rs| - 1];
      Posts(init, pid)
      + if r.Publish? && Wants(Wanted(init), pid, r.topic)
        then [Post(Decimal(r.pid), r.topic, Cut(r.text, TextRoom(r.pid, r.topic)))]
        else []
  }

  lemma ReadAppend(messages: seq<string>, m: string)
    ensures ReadPosts(messages + [m]) == ReadPosts(messages) + [ReadPost(m)]
  {
    assert (messages + [m])[..|messages|] == messages;
  }

  lemma {:induction false} DeliveriesArePosts(rs: seq<Request>, pid: int)
    requires forall r :: r in rs ==> GoodRequest(r)
    ensures ReadPosts(Deliveries(rs, pid)) == Posts(rs, pid)
  {
    hide ReadPost, ReadPosts, Wanted, Wants, Message, GoodRequest;
    NoPosts();
    if rs != [] {
      var init, r := rs[..|rs| - 1], rs[|rs| - 1];
      DeliveriesArePosts(init, pid);
      assert r in rs;
      if r.Publish? && Wants(Wanted(init), pid, r.topic) {
        ReadAppend(Deliveries(init, pid), Message(r));
        PostIsRead(r);
      } else {
        assert Deliveries(init, pid) + [] == Deliveries(init, pid);
      }
    }
  }

  lemma NoPosts()
    ensures ReadPosts([]) == []
  {
  }

  lemma PostIsRead(r: Request)
    requires r.Publish? && GoodRequest(r)
    ensures ReadPost(Message(r)) == Post(Decimal(r.pid), r.topic, Cut(r.text, TextRoom(r.pid, r.topic)))
  {
    hide Message, FieldOf, AfterCommas, Cut, GoodTopic;
    PublishedFields(r.pid, r.topic, r.text);
  }

  lemma {:induction false} ReadPrefix(a: seq<string>, b: seq<string>)
    requires a <= b
    ensures ReadPosts(a) <= ReadPosts(b)
    decreases |b|
  {
    hide ReadPost;
    if |a| < |b| {
      ReadPrefix(a, b[..|b| - 1]);
    } else {
      assert a == b;
    }
  }

  /** In every run, the posts a subscriber reads are a prefix of those published on its topics while it was
      subscribed: sender, topic and text, in the order the broker handled them. */
  lemma SubscribersReadThePosts(schedule: seq<Choice>, pid: int)
    requires GoodSchedule(schedule) && pid > BROKER_TYPE
    ensures var s := Run(schedule);
      && s.handled <= |s.issued|
      && ReadPosts(Received(s, pid)) <= Posts(s.issued[..s.handled], pid)
      && (Drained(s) ==> s.handled == |s.issued| && ReadPosts(Received(s, pid)) == Posts(s.issued, pid))
  {
    hide Run, Inv, Deliveries, Posts, ReadPosts, Received;
    SubscribersReceiveWhatTheyWant(schedule, pid);
    var s := Run(schedule);
    IssuedAreGood(schedule);
    var done := s.issued[..s.handled];
    DeliveriesArePosts(done, pid);
    ReadPrefix(Received(s, pid), Deliveries(done, pid));
    if Drained(s) {
      assert done == s.issued;
    }
  }

  lemma IssuedAreGood(schedule: seq<Choice>)
    requires GoodSchedule(schedule)
    ensures forall r :: r in Run(schedule).issued ==> GoodRequest(r)
  {
    hide GoodRequest, Run;
    RunInv(schedule);
  }

  // ---------- every state can be drained ----------

  /** Every message in the queue is for the broker or for a subscriber. */
  ghost predicate Addressable(s: System) {
    && (forall i :: 0 <= i < |s.queue| ==> s.queue[i].mtype >= BROKER_TYPE)
    && (s.broker.Forwarding? ==> forall i :: 0 <= i < |s.broker.rest| ==> s.broker.rest[i] > BROKER_TYPE)
  }

  lemma {:induction false} RecipientsAreKnown(t: Table, topic: string)
    requires forall i :: 0 <= i < |t| ==> t[i].pid > BROKER_TYPE
    ensures forall i :: 0 <= i < |Recipients(t, topic)| ==> Recipients(t, topic)[i] > BROKER_TYPE
  {
    if t != [] {
      RecipientsAreKnown(t[..|t| - 1], topic);
    }
  }

  lemma PidsAreKnown(t: Table)
    requires forall pid :: pid in Abs(t) ==> pid > BROKER_TYPE
    ensures forall i :: 0 <= i < |t| ==> t[i].pid > BROKER_TYPE
  {
    forall i | 0 <= i < |t| ensures t[i].pid > BROKER_TYPE {
      AbsAt(t, t[i].pid);
    }
  }

  lemma StepAddressable(s: System, c: Choice)
    requires Inv(s) && Addressable(s)
    ensures Addressable(Step(s, c))
  {
    hide Abs, Unique, Message, Messages, GoodRequest, Deliveries, Wanted, TextsOf, Pending, Parse, After, Recipients;
    PidsAreKnown(s.table);
    if s.broker.Idle? && FirstOf(s.queue, BROKER_TYPE) < |s.queue| {
      var cmd := Parse(s.queue[FirstOf(s.queue, BROKER_TYPE)].text);
      if cmd.DoSend? {
        RecipientsAreKnown(s.table, cmd.topic);
      }
    }
  }

  lemma {:induction false} RunAddressable(schedule: seq<Choice>)
    requires GoodSchedule(schedule)
    ensures Addressable(Run(schedule))
  {
    if schedule != [] {
      hide Inv, Addressable, Step;
      RunAddressable(schedule[..|schedule| - 1]);
      RunInv(schedule[..|schedule| - 1]);
      StepAddressable(Run(schedule[..|schedule| - 1]), schedule[|schedule| - 1]);
    } else {
      StartAddressable();
    }
  }

  lemma StartAddressable()
    ensures Addressable(START)
  {
  }

  function ForwardsLeft(b: BrokerPc): nat {
    if b.Forwarding? then 1 + |b.rest| else 0
  }

  ghost function RequestsLeft(s: System): nat {
    if s.handled <= |s.issued| then |s.issued| - s.handled else 0
  }

  /** The choice that brings the system closer to empty: the broker while it has anything to do, then a
      subscriber. */
  function Draining(s: System): Choice {
    if s.broker.Forwarding? || FirstOf(s.queue, BROKER_TYPE) < |s.queue| then BrokerMoves
    else SubscriberReads(if s.queue == [] then 2 else s.queue[0].mtype)
  }

  predicate Drained(s: System) {
    s.queue == [] && s.broker.Idle?
  }

  lemma DrainingDrains(s: System)
    requires Inv(s) && Addressable(s) && !Drained(s)
    ensures var t := Step(s, Draining(s));
      && t.issued == s.issued
      && (RequestsLeft(t) < RequestsLeft(s)
          || (RequestsLeft(t) == RequestsLeft(s) && ForwardsLeft(t.broker) < ForwardsLeft(s.broker))
          || (RequestsLeft(t) == RequestsLeft(s) && ForwardsLeft(t.broker) == ForwardsLeft(s.broker)
              && |t.queue| < |s.queue|))
  {
    hide Abs, Unique, Message, Messages, GoodRequest, Deliveries, Wanted, Pending, Parse, After, Recipients, TextsOf;
    if s.broker.Idle? {
      if FirstOf(s.queue, BROKER_TYPE) < |s.queue| {
        NextRequest(s);
      } else {
        assert s.queue[0].mtype != BROKER_TYPE;
        assert FirstOf(s.queue, s.queue[0].mtype) == 0;
      }
    }
  }

  lemma RunStep(schedule: seq<Choice>, c: Choice)
    ensures Run(schedule + [c]) == Step(Run(schedule), c)
  {
    assert (schedule + [c])[..|schedule|] == schedule;
  }

  /** From every reachable state, moves of the broker and the subscribers alone lead to a state with nothing
      left to do, in which every subscriber has received everything it is owed. */
  lemma {:induction false} CanDrain(schedule: seq<Choice>) returns (more: seq<Choice>)
    requires GoodSchedule(schedule)
    ensures GoodSchedule(schedule + more) && forall i :: 0 <= i < |more| ==> !more[i].ClientSends?
    ensures var s := Run(schedule + more);
      && Drained(s) && s.issued == Run(schedule).issued
      && forall pid :: pid > BROKER_TYPE ==> Received(s, pid) == Deliveries(s.issued, pid)
    decreases RequestsLeft(Run(schedule)), ForwardsLeft(Run(schedule).broker), |Run(schedule).queue|
  {
    hide Run, Inv, Addressable, Step, Received, Deliveries, GoodRequest;
    var s := Run(schedule);
    if Drained(s) {
      more := [];
      assert schedule + more == schedule;
      forall pid | pid > BROKER_TYPE ensures Received(s, pid) == Deliveries(s.issued, pid) {
        SubscribersReceiveWhatTheyWant(schedule, pid);
      }
    } else {
      var c := Draining(s);
      RunInv(schedule);
      RunAddressable(schedule);
      DrainingDrains(s);
      RunStep(schedule, c);
      var rest := CanDrain(schedule + [c]);
      more := [c] + rest;
      assert schedule + more == schedule + [c] + rest;
    }
  }

  // ---------- the broker's arrays ----------

  /** What the broker is asked to do, in the order of the requests. */
  function CommandsOf(rs: seq<Request>): (cs: seq<Command>)
    ensures |cs| == |rs| && forall i :: 0 <= i < |cs| ==> cs[i] == CommandOf(rs[i])
  {
    seq(|rs|, i requires 0 <= i < |rs| => CommandOf(rs[i]))
  }

  lemma TableNext(rs: seq<Request>, k: nat)
    requires k < |rs|
    ensures TableAfter(CommandsOf(rs[..k + 1])) == After(TableAfter(CommandsOf(rs[..k])), CommandOf(rs[k]))
  {
    var cs := CommandsOf(rs[..k + 1]);
    assert cs[..|cs| - 1] == CommandsOf(rs[..k]);
  }

  /** The requests are only ever added to. */
  lemma IssuedGrows(s: System, c: Choice)
    ensures s.issued <= Step(s, c).issued
    ensures s.handled <= Step(s, c).handled
  {
  }

  /** The system's table is the one the handled requests make. */
  ghost predicate TableIs(s: System) {
    s.handled <= |s.issued| && s.table == TableAfter(CommandsOf(s.issued[..s.handled]))
  }

  lemma TableStays(s: System, c: Choice)
    requires TableIs(s) && Step(s, c).table == s.table && Step(s, c).handled == s.handled
    ensures TableIs(Step(s, c))
  {
    hide Step;
    IssuedGrows(s, c);
    assert Step(s, c).issued[..s.handled] == s.issued[..s.handled];
  }

  lemma OtherSteps(s: System, c: Choice)
    requires !c.BrokerMoves? || !s.broker.Idle? || FirstOf(s.queue, BROKER_TYPE) == |s.queue|
    ensures Step(s, c).table == s.table && Step(s, c).handled == s.handled
  {
    hide FirstOf, Message, After;
  }

  lemma TakenTable(s: System)
    requires Inv(s) && TableIs(s) && s.broker.Idle? && FirstOf(s.queue, BROKER_TYPE) < |s.queue|
    ensures TableIs(BrokerStep(s))
  {
    hide Inv, BrokerStep, TableAfter, After, Message, Recipients, GoodRequest, FirstOf;
    TakeEffect(s);
    TableNext(s.issued, s.handled);
  }

  lemma {:induction false} RunTable(schedule: seq<Choice>)
    requires GoodSchedule(schedule)
    ensures TableIs(Run(schedule))
  {
    if schedule != [] {
      hide Inv, TableIs, FirstOf, BrokerStep, Issue, ReceiveStep;
      var s, c := Run(schedule[..|schedule| - 1]), schedule[|schedule| - 1];
      RunTable(schedule[..|schedule| - 1]);
      RunInv(schedule[..|schedule| - 1]);
      if c.BrokerMoves? && s.broker.Idle? && FirstOf(s.queue, BROKER_TYPE) < |s.queue| {
        TakenTable(s);
      } else {
        OtherSteps(s, c);
        TableStays(s, c);
      }
    }
  }

  /** The message the broker would take next, if any, is one its arrays have room for. */
  ghost predicate BrokerHasRoom(s: System) {
    var i := FirstOf(s.queue, BROKER_TYPE);
    s.broker.Idle? && i < |s.queue| ==> HasRoom(s.table, Parse(s.queue[i].text))
  }

  lemma NextParsed(s: System)
    requires Inv(s) && FirstOf(s.queue, BROKER_TYPE) < |s.queue|
    ensures s.handled < |s.issued|
    ensures Parse(s.queue[FirstOf(s.queue, BROKER_TYPE)].text) == CommandOf(s.issued[s.handled])
  {
    hide Parse, Message, Abs, Unique, GoodTopic;
    NextRequest(s);
    assert s.issued[s.handled] in s.issued;
    RequestRoundTrip(s.issued[s.handled]);
  }

  /** The broker had room for every message it has taken, so each of its steps was one that
      `BrokerProcess.Handle` performs. */
  ghost predicate TookWithRoom(schedule: seq<Choice>) {
    schedule != [] ==>
      var init := schedule[..|schedule| - 1];
      TookWithRoom(init) && (schedule[|schedule| - 1].BrokerMoves? ==> BrokerHasRoom(Run(init)))
  }

  /** Taking the next message needs room exactly if the requests handled by then need it. */
  lemma RoomForNext(s: System)
    requires Inv(s) && TableIs(s) && s.broker.Idle? && FirstOf(s.queue, BROKER_TYPE) < |s.queue|
    ensures BrokerStep(s).handled == s.handled + 1 <= |s.issued| && BrokerStep(s).issued == s.issued
    ensures var cs := CommandsOf(s.issued[..s.handled]); var longer := CommandsOf(s.issued[..s.handled + 1]);
      NoOverflow(longer) <==> NoOverflow(cs) && BrokerHasRoom(s)
  {
    hide Inv, TableAfter, HasRoom, Message, GoodRequest, FirstOf, Parse, BrokerStep, After, NoOverflow, Recipients;
    TakeEffect(s);
    NextParsed(s);
    var longer := CommandsOf(s.issued[..s.handled + 1]);
    NoOverflowStep(longer);
    assert longer[..|longer| - 1] == CommandsOf(s.issued[..s.handled]);
  }

  lemma {:induction false} RoomSoFar(schedule: seq<Choice>)
    requires GoodSchedule(schedule)
    ensures var s := Run(schedule);
      s.handled <= |s.issued| && (TookWithRoom(schedule) <==> NoOverflow(CommandsOf(s.issued[..s.handled])))
  {
    hide Inv, FirstOf, BrokerStep, Issue, ReceiveStep, NoOverflow, BrokerHasRoom;
    if schedule == [] {
      NothingOverflows();
    } else {
      var init, c := schedule[..|schedule| - 1], schedule[|schedule| - 1];
      var s := Run(init);
      RoomSoFar(init);
      RunTable(init);
      RunInv(init);
      if c.BrokerMoves? && s.broker.Idle? && FirstOf(s.queue, BROKER_TYPE) < |s.queue| {
        RoomForNext(s);
      } else {
        OtherSteps(s, c);
        IssuedGrows(s, c);
        assert Step(s, c).issued[..s.handled] == s.issued[..s.handled];
        RoomWhenIdle(s, c);
      }
    }
  }

  lemma NothingOverflows()
    ensures NoOverflow(CommandsOf(START.issued[..START.handled]))
  {
  }

  lemma RoomWhenIdle(s: System, c: Choice)
    requires !c.BrokerMoves? || !s.broker.Idle? || FirstOf(s.queue, BROKER_TYPE) == |s.queue|
    ensures c.BrokerMoves? ==> BrokerHasRoom(s)
  {
  }

  /** The runs of the system that the program's arrays allow are exactly those in which, among the requests
      handled, at most 50 processes subscribe, each at most 10 times. */
  lemma RunsWithRoom(schedule: seq<Choice>)
    requires GoodSchedule(schedule)
    ensures var s := Run(schedule);
      s.handled <= |s.issued| && (TookWithRoom(schedule) <==> WithinCapacity(CommandsOf(s.issued[..s.handled])))
  {
    hide Run, NoOverflow, WithinCapacity, TookWithRoom;
    RoomSoFar(schedule);
    var cs := CommandsOf(Run(schedule).issued[..Run(schedule).handled]);
    assert Malformed !in cs;
    OverflowIsExact(cs);
  }
}
