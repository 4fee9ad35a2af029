/** The broker process: the fixed subscription array and the loop body that handles one message. */
module Broker {
  import opened Commands
  import opened Subscriptions

  const MAX_SUBS := 50
  const MAX_TOPICS := 10

  /** A message on the System V queue. */
  datatype Msg = Msg(mtype: int, text: string)

  function Addressed(pids: seq<int>, text: string): (r: seq<Msg>)
    ensures |r| == |pids| && forall i :: 0 <= i < |r| ==> r[i] == Msg(pids[i], text)
  {
    seq(|pids|, i requires 0 <= i < |pids| => Msg(pids[i], text))
  }

  /** The broker checks no bounds: these are the commands its arrays have room for. */
  predicate HasRoom(t: Table, c: Command) {
    match c
    case DoSubscribe(pid, _) =>
      var i := Position(t, pid);
      if i < |t| then |t[i].topics| < MAX_TOPICS else |t| < MAX_SUBS
    case Malformed => false
    case _ => true
  }

  class BrokerProcess {
    const subs: array<Subscriber>
    var subCount: nat
    var sent: seq<Msg>  // everything given to `msgsnd`

    ghost predicate Valid()
      reads this, subs
    {
      && subs.Length == MAX_SUBS && subCount <= MAX_SUBS
      && forall i :: 0 <= i < subCount ==> |subs[i].topics| <= MAX_TOPICS
    }

    ghost function Entries(): Table
      reads this, subs
      requires subCount <= subs.Length
    {
      subs[..subCount]
    }

    constructor ()
      ensures Valid() && Entries() == [] && sent == [] && fresh(subs)
    {
      subs := new Subscriber[MAX_SUBS](_ => Subscriber(0, []));
      subCount, sent := 0, [];
    }

    method AddTopic(pid: int, topic: string)
      requires Valid() && HasRoom(Entries(), DoSubscribe(pid, topic))
      modifies this`subCount, subs
      ensures Valid() && Entries() == Subscribed(old(Entries()), pid, topic)
    {
      hide Position;
      ghost var t := Entries();
      var found := -1;
      var i := 0;
      while i < subCount && found == -1
        invariant 0 <= i <= subCount
        invariant found == -1 ==> forall j :: 0 <= j < i ==> subs[j].pid != pid
        invariant found != -1 ==> found == i - 1 && subs[found].pid == pid
        invariant found != -1 ==> forall j :: 0 <= j < found ==> subs[j].pid != pid
      {
        if subs[i].pid == pid { found := i; }
        i := i + 1;
      }
      if found == -1 {
        PositionAbsent(t, pid);
        found := subCount;
        subCount := subCount + 1;
        subs[found] := Subscriber(pid, []);
      } else {
        PositionAt(t, pid, found);
      }
      subs[found] := Subscriber(subs[found].pid, subs[found].topics + [topic]);
      if found < |t| {
        assert Entries() == t[found := Subscriber(pid, t[found].topics + [topic])];
      } else {
        assert subs[found].topics == [topic];
        assert Entries() == t + [Subscriber(pid, [topic])];
      }
    }

    method RemoveTopic(pid: int, topic: string)
      requires Valid()
      modifies subs
      ensures Valid() && Entries() == Unsubscribed(old(Entries()), pid, topic)
    {
      hide Unsubscribed, Dropped;
      ghost var t := Entries();
      ghost var r := Unsubscribed(t, pid, topic);
      for i := 0 to subCount
        invariant Valid()
        invariant forall k :: 0 <= k < i ==> subs[k] == r[k]
        invariant forall k :: i <= k < subCount ==> subs[k] == t[k]
      {
        if subs[i].pid == pid {
          ghost var dropped := Dropped(t[i].topics, topic);
          for j := 0 to |subs[i].topics|
            invariant Valid() && subs[i].pid == pid && |subs[i].topics| == |t[i].topics|
            invariant forall k :: 0 <= k < i ==> subs[k] == r[k]
            invariant forall k :: i < k < subCount ==> subs[k] == t[k]
            invariant forall k :: 0 <= k < j ==> subs[i].topics[k] == dropped[k]
            invariant forall k :: j <= k < |t[i].topics| ==> subs[i].topics[k] == t[i].topics[k]
          {
            if subs[i].topics[j] == topic {
              subs[i] := Subscriber(pid, subs[i].topics[j := ""]);
            }
          }
          assert subs[i].topics == dropped;
        }
      }
    }

    method Forward(topic: string, text: string)
      requires Valid()
      modifies this`sent
      ensures sent == old(sent) + Addressed(Recipients(Entries(), topic), text)
    {
      for i := 0 to subCount
        invariant sent == old(sent) + Addressed(Recipients(subs[..i], topic), text)
      {
        var j := 0;
        while j < |subs[i].topics| && subs[i].topics[j] != topic
          invariant 0 <= j <= |subs[i].topics| && topic !in subs[i].topics[..j]
        {
          j := j + 1;
        }
        assert subs[..i + 1][..i] == subs[..i];
        if j < |subs[i].topics| {
          sent := sent + [Msg(subs[i].pid, text)];
          assert topic in subs[i].topics;
        } else {
          assert subs[i].topics[..j] == subs[i].topics;
        }
      }
    }

    /** One turn of `run_broker`'s loop. */
    method Handle(text: string)
      requires Valid() && HasRoom(Entries(), Parse(text))
      modifies this`subCount, this`sent, subs
      ensures Valid() && Entries() == After(old(Entries()), Parse(text))
      ensures sent == old(sent) +
        if Parse(text).DoSend? then Addressed(Recipients(old(Entries()), Parse(text).topic), text) else []
    {
      match Parse(text)
      case DoSubscribe(pid, topic) => AddTopic(pid, topic);
      case DoUnsubscribe(pid, topic) => RemoveTopic(pid, topic);
      case DoSend(topic) => Forward(topic, text);
      case Unknown =>
    }
  }

  // ---------- what the arrays have to hold ----------

  function TableAfter(cs: seq<Command>): Table {
    if cs == [] then [] else After(TableAfter(cs[..|cs| - 1]), cs[|cs| - 1])
  }

  function SubscribingPids(cs: seq<Command>): set<int> {
    if cs == [] then {}
    else SubscribingPids(cs[..|cs| - 1]) + if cs[|cs| - 1].DoSubscribe? then {cs[|cs| - 1].pid} else {}
  }

  function SubscribeCount(cs: seq<Command>, pid: int): nat {
    if cs == [] then 0
    else
      var last := cs[|cs| - 1];
      SubscribeCount(cs[..|cs| - 1], pid) + if last.DoSubscribe? && last.pid == pid then 1 else 0
  }

  function StoredTopics(t: Table, pid: int): nat {
    if Position(t, pid) < |t| then |t[Position(t, pid)].topics| else 0
  }

  lemma StoredAfter(t: Table, c: Command, pid: int)
    ensures StoredTopics(After(t, c), pid) == StoredTopics(t, pid) + if c.DoSubscribe? && c.pid == pid then 1 else 0
    ensures Position(After(t, c), pid) < |After(t, c)| <==> Position(t, pid) < |t| || (c.DoSubscribe? && c.pid == pid)
  {
    match c
    case DoSubscribe(p, topic) => SubscribedPosition(t, p, topic, pid);
    case DoUnsubscribe(p, topic) =>
      var r := Unsubscribed(t, p, topic);
      var i := Position(t, pid);
      if i < |t| { PositionAt(r, pid, i); } else { PositionAbsent(r, pid); }
    case _ =>
  }

  /** Tombstones are not reused and entries not removed: the table holds exactly one entry per process
      that ever subscribed, with one slot per `subscribe` it ever sent. So no array overflows if and only
      if there are at most 50 such processes with at most 10 subscribes each. */
  lemma {:induction false} CapacityIsExact(cs: seq<Command>)
    ensures |TableAfter(cs)| == |SubscribingPids(cs)|
    ensures forall pid :: StoredTopics(TableAfter(cs), pid) == SubscribeCount(cs, pid)
    ensures forall pid :: Position(TableAfter(cs), pid) < |TableAfter(cs)| <==> pid in SubscribingPids(cs)
  {
    if cs != [] {
      var init, c := cs[..|cs| - 1], cs[|cs| - 1];
      var t := TableAfter(init);
      CapacityIsExact(init);
      forall pid ensures StoredTopics(TableAfter(cs), pid) == SubscribeCount(cs, pid)
        && (Position(TableAfter(cs), pid) < |TableAfter(cs)| <==> pid in SubscribingPids(cs)) {
        StoredAfter(t, c, pid);
      }
      assert c.DoSubscribe? ==> (Position(t, c.pid) < |t| <==> c.pid in SubscribingPids(init));
      assert c.DoSubscribe? && c.pid in SubscribingPids(init) ==> SubscribingPids(cs) == SubscribingPids(init);
    }
  }

  /** Every array the broker writes to has room, at every command of a run. */
  ghost predicate NoOverflow(cs: seq<Command>) {
    forall k :: 0 <= k < |cs| ==> HasRoom(TableAfter(cs[..k]), cs[k])
  }

  ghost predicate WithinCapacity(cs: seq<Command>) {
    |SubscribingPids(cs)| <= 50 && forall pid :: SubscribeCount(cs, pid) <= 10
  }

  lemma NoOverflowStep(cs: seq<Command>)
    requires cs != []
    ensures var init, c := cs[..|cs| - 1], cs[|cs| - 1];
      NoOverflow(cs) <==> NoOverflow(init) && HasRoom(TableAfter(init), c)
  {
    hide HasRoom, TableAfter;
    var init := cs[..|cs| - 1];
    assert forall k :: 0 <= k < |init| ==> cs[k] == init[k] && cs[..k] == init[..k];
    assert cs[..|cs| - 1] == init;
    if NoOverflow(cs) {
      assert HasRoom(TableAfter(cs[..|cs| - 1]), cs[|cs| - 1]);
      forall k | 0 <= k < |init| ensures HasRoom(TableAfter(init[..k]), init[k]) {
        assert HasRoom(TableAfter(cs[..k]), cs[k]);
      }
    }
    if NoOverflow(init) && HasRoom(TableAfter(init), cs[|cs| - 1]) {
      forall k | 0 <= k < |cs| ensures HasRoom(TableAfter(cs[..k]), cs[k]) {
        if k < |init| {
          assert HasRoom(TableAfter(init[..k]), init[k]);
        }
      }
    }
  }

  /** No write of the broker is out of bounds if and only if at most 50 processes ever subscribe and each
      sends at most 10 subscribes, unsubscribed or not. */
  lemma {:induction false} OverflowIsExact(cs: seq<Command>)
    requires Malformed !in cs
    ensures NoOverflow(cs) <==> WithinCapacity(cs)
  {
    hide NoOverflow, HasRoom, TableAfter, WithinCapacity;
    if cs == [] {
      NothingYet();
    } else {
      var init, c := cs[..|cs| - 1], cs[|cs| - 1];
      assert c in cs;
      OverflowIsExact(init);
      NoOverflowStep(cs);
      RoomIsCapacity(init, c);
      assert cs == init + [c];
    }
  }

  lemma NothingYet()
    ensures NoOverflow([]) && WithinCapacity([])
  {
  }

  lemma RoomIsCapacity(init: seq<Command>, c: Command)
    requires c != Malformed
    ensures WithinCapacity(init + [c]) <==> WithinCapacity(init) && HasRoom(TableAfter(init), c)
  {
    hide TableAfter;
    var cs := init + [c];
    assert cs[..|cs| - 1] == init && cs[|cs| - 1] == c;
    CapacityIsExact(init);
    var t := TableAfter(init);
    assert forall pid ::
      SubscribeCount(cs, pid) == SubscribeCount(init, pid) + if c.DoSubscribe? && c.pid == pid then 1 else 0;
    if c.DoSubscribe? {
      assert StoredTopics(t, c.pid) == SubscribeCount(init, c.pid);
      if c.pid in SubscribingPids(init) {
        assert SubscribingPids(cs) == SubscribingPids(init);
      }
      assert SubscribeCount(cs, c.pid) == SubscribeCount(init, c.pid) + 1;
    } else {
      assert SubscribingPids(cs) == SubscribingPids(init);
    }
  }

  function Copies(c: Command, n: nat): (cs: seq<Command>)
    ensures |cs| == n && forall i :: 0 <= i < n ==> cs[i] == c
  {
    seq(n, _ => c)
  }

  lemma {:induction false} SubscribesCounted(pid: int, topic: string, n: nat)
    ensures SubscribeCount(Copies(DoSubscribe(pid, topic), n), pid) == n
    ensures forall other :: other != pid ==> SubscribeCount(Copies(DoSubscribe(pid, topic), n), other) == 0
    ensures |SubscribingPids(Copies(DoSubscribe(pid, topic), n))| <= 1
    ensures SubscribingPids(Copies(DoSubscribe(pid, topic), n)) <= {pid}
  {
    var cs := Copies(DoSubscribe(pid, topic), n);
    if n > 0 {
      assert cs[..n - 1] == Copies(DoSubscribe(pid, topic), n - 1);
      SubscribesCounted(pid, topic, n - 1);
      assert SubscribingPids(cs) == {pid};
    }
  }

  /** The overflow is real: the eleventh subscribe message of any one process, whatever the topic, is the
      first that the broker has no room for. */
  lemma EleventhSubscribeOverflows(pid: nat, topic: string)
    requires GoodRequest(Subscribe(pid, topic))
    ensures var c := Parse(Message(Subscribe(pid, topic)));
      NoOverflow(Copies(c, 10)) && !HasRoom(TableAfter(Copies(c, 10)), c)
  {
    hide Parse, Message, NoOverflow, HasRoom, TableAfter, SubscribeCount, SubscribingPids;
    RequestRoundTrip(Subscribe(pid, topic));
    var c := DoSubscribe(pid, topic);
    SubscribesCounted(pid, topic, MAX_TOPICS);
    SubscribesCounted(pid, topic, MAX_TOPICS + 1);
    OverflowIsExact(Copies(c, MAX_TOPICS));
    OverflowIsExact(Copies(c, MAX_TOPICS + 1));
    NoOverflowStep(Copies(c, MAX_TOPICS + 1));
    assert Copies(c, MAX_TOPICS + 1)[..MAX_TOPICS] == Copies(c, MAX_TOPICS);
  }
}
