/** The broker's subscription table on values: entries are never removed, topics may be stored twice,
    and an unsubscribed topic is overwritten with the empty string. It stands for a map from process
    id to a set of topics. */
module Subscriptions {
  import opened Commands
  import opened Lists

  datatype Subscriber = Subscriber(pid: int, topics: seq<string>)

  type Table = seq<Subscriber>

  /** The first entry of a process, or the length of the table. */
  function Position(t: Table, pid: int): (i: nat)
    ensures i <= |t|
    ensures forall j :: 0 <= j < i ==> t[j].pid != pid
    ensures i < |t| ==> t[i].pid == pid
  {
    FirstIndex(t, (s: Subscriber) => s.pid == pid)
  }

  function Subscribed(t: Table, pid: int, topic: string): Table {
    var i := Position(t, pid);
    if i < |t| then t[i := Subscriber(pid, t[i].topics + [topic])] else t + [Subscriber(pid, [topic])]
  }

  /** Every copy of `topic` becomes a tombstone. */
  function Dropped(topics: seq<string>, topic: string): (r: seq<string>)
    ensures |r| == |topics|
    ensures forall j :: 0 <= j < |r| ==> r[j] == if topics[j] == topic then "" else topics[j]
  {
    seq(|topics|, j requires 0 <= j < |topics| => if topics[j] == topic then "" else topics[j])
  }

  function Unsubscribed(t: Table, pid: int, topic: string): (r: Table)
    ensures |r| == |t|
    ensures forall i :: 0 <= i < |r| ==>
      r[i] == if t[i].pid == pid then Subscriber(pid, Dropped(t[i].topics, topic)) else t[i]
  {
    seq(|t|, i requires 0 <= i < |t| =>
      if t[i].pid == pid then Subscriber(pid, Dropped(t[i].topics, topic)) else t[i])
  }

  /** Whom a `send` goes to, in the order of the table. */
  function Recipients(t: Table, topic: string): seq<int> {
    if t == [] then []
    else Recipients(t[..|t| - 1], topic) + (if topic in t[|t| - 1].topics then [t[|t| - 1].pid] else [])
  }

  function After(t: Table, c: Command): Table {
    match c
    case DoSubscribe(pid, topic) => Subscribed(t, pid, topic)
    case DoUnsubscribe(pid, topic) => Unsubscribed(t, pid, topic)
    case _ => t
  }

  // ---------- the map the table stands for ----------

  ghost predicate Unique(t: Table) {
    forall i, j :: 0 <= i < j < |t| ==> t[i].pid != t[j].pid
  }

  ghost function Live(topics: seq<string>): set<string> {
    set s | s in topics && s != ""
  }

  ghost function Abs(t: Table): map<int, set<string>> {
    map s | s in t :: s.pid := Live(t[Position(t, s.pid)].topics)
  }

  lemma AbsAt(t: Table, pid: int)
    ensures pid in Abs(t) <==> Position(t, pid) < |t|
    ensures pid in Abs(t) ==> Abs(t)[pid] == Live(t[Position(t, pid)].topics)
  {
    if Position(t, pid) < |t| {
      assert t[Position(t, pid)] in t;
    }
  }

  lemma PositionAt(t: Table, pid: int, i: nat)
    requires i < |t| && t[i].pid == pid && forall j :: 0 <= j < i ==> t[j].pid != pid
    ensures Position(t, pid) == i
  {
  }

  lemma PositionAbsent(t: Table, pid: int)
    requires forall j :: 0 <= j < |t| ==> t[j].pid != pid
    ensures Position(t, pid) == |t|
  {
  }

  /** Where a process is in the table once `pid` has subscribed. */
  lemma SubscribedPosition(t: Table, pid: int, topic: string, p: int)
    ensures var r := Subscribed(t, pid, topic);
      if p == pid then Position(r, p) == Position(t, p) && Position(r, p) < |r|
      else Position(r, p) < |r| <==> Position(t, p) < |t|
    ensures var r := Subscribed(t, pid, topic);
      p != pid && Position(t, p) < |t| ==> Position(r, p) == Position(t, p) && r[Position(r, p)] == t[Position(t, p)]
  {
    var r := Subscribed(t, pid, topic);
    var i := Position(t, p);
    if i < |t| {
      PositionAt(r, p, i);
    } else if p == pid {
      PositionAt(r, p, i);
    } else {
      PositionAbsent(r, p);
    }
  }

  ghost function TopicsOf(t: Table, pid: int): set<string> {
    if pid in Abs(t) then Abs(t)[pid] else {}
  }

  lemma SubscribedAt(t: Table, pid: int, topic: string, p: int)
    requires topic != ""
    ensures var r := Subscribed(t, pid, topic);
      && (p in Abs(r) <==> p in Abs(t) || p == pid)
      && TopicsOf(r, p) == TopicsOf(t, p) + if p == pid then {topic} else {}
  {
    hide Abs, Position;
    var r := Subscribed(t, pid, topic);
    SubscribedPosition(t, pid, topic, p);
    AbsAt(t, p);
    AbsAt(r, p);
    if p == pid {
      var i := Position(t, p);
      LiveAdded(if i < |t| then t[i].topics else [], topic);
    }
  }

  lemma LiveAdded(topics: seq<string>, topic: string)
    requires topic != ""
    ensures Live(topics + [topic]) == Live(topics) + {topic} && Live([]) == {} && Live([topic]) == {topic}
  {
  }

  lemma SubscribedUnique(t: Table, pid: int, topic: string)
    requires Unique(t)
    ensures Unique(Subscribed(t, pid, topic))
  {
  }

  /** `subscribe` adds the topic to the process's set, opening an entry if there is none. */
  lemma SubscribeRefines(t: Table, pid: int, topic: string)
    requires Unique(t) && topic != ""
    ensures Unique(Subscribed(t, pid, topic))
    ensures Abs(Subscribed(t, pid, topic)) == Abs(t)[pid := TopicsOf(t, pid) + {topic}]
  {
    hide Abs, Subscribed, Unique;
    SubscribedUnique(t, pid, topic);
    var r := Subscribed(t, pid, topic);
    forall p ensures p in Abs(r) <==> p in Abs(t) || p == pid {
      SubscribedAt(t, pid, topic, p);
    }
    forall p | p in Abs(r) ensures Abs(r)[p] == Abs(t)[pid := TopicsOf(t, pid) + {topic}][p] {
      SubscribedAt(t, pid, topic, p);
    }
  }

  lemma UnsubscribedAt(t: Table, pid: int, topic: string, p: int)
    ensures var r := Unsubscribed(t, pid, topic);
      && (p in Abs(r) <==> p in Abs(t))
      && TopicsOf(r, p) == TopicsOf(t, p) - if p == pid then {topic} else {}
  {
    var r := Unsubscribed(t, pid, topic);
    var i := Position(t, p);
    if i < |t| {
      PositionAt(r, p, i);
      DroppedLive(t[i].topics, topic);
    } else {
      PositionAbsent(r, p);
    }
    AbsAt(t, p);
    AbsAt(r, p);
  }

  lemma UnsubscribedUnique(t: Table, pid: int, topic: string)
    requires Unique(t)
    ensures Unique(Unsubscribed(t, pid, topic))
  {
  }

  /** `unsubscribe` removes the topic from the process's set, however often it was stored. */
  lemma UnsubscribeRefines(t: Table, pid: int, topic: string)
    requires Unique(t)
    ensures Unique(Unsubscribed(t, pid, topic))
    ensures Abs(Unsubscribed(t, pid, topic)) ==
      if pid in Abs(t) then Abs(t)[pid := Abs(t)[pid] - {topic}] else Abs(t)
  {
    hide Abs, Unsubscribed, Unique;
    UnsubscribedUnique(t, pid, topic);
    var r := Unsubscribed(t, pid, topic);
    forall p ensures p in Abs(r) <==> p in Abs(t) {
      UnsubscribedAt(t, pid, topic, p);
    }
    var m := if pid in Abs(t) then Abs(t)[pid := Abs(t)[pid] - {topic}] else Abs(t);
    forall p | p in Abs(r) ensures Abs(r)[p] == m[p] {
      UnsubscribedAt(t, pid, topic, p);
      assert TopicsOf(t, p) - {} == TopicsOf(t, p);
    }
  }

  lemma DroppedLive(topics: seq<string>, topic: string)
    ensures Live(Dropped(topics, topic)) == Live(topics) - {topic}
  {
    var r := Dropped(topics, topic);
    forall s | s in Live(topics) - {topic} ensures s in Live(r) {
      var j :| 0 <= j < |topics| && topics[j] == s;
      assert r[j] == s;
    }
  }

  lemma {:induction false} RecipientsAt(t: Table, topic: string, pid: int)
    requires Unique(t)
    ensures multiset(Recipients(t, topic))[pid] ==
      if Position(t, pid) < |t| && topic in t[Position(t, pid)].topics then 1 else 0
  {
    if t != [] {
      var init, last := t[..|t| - 1], t[|t| - 1];
      RecipientsAt(init, topic, pid);
      var i := Position(t, pid);
      if i < |init| {
        PositionAt(init, pid, i);
      } else {
        PositionAbsent(init, pid);
      }
    }
  }

  /** A `send` goes exactly once to every process subscribed to the topic and to no other, although the
      table may hold the topic several times. */
  lemma SendReachesSubscribersOnce(t: Table, topic: string, pid: int)
    requires Unique(t) && topic != ""
    ensures multiset(Recipients(t, topic))[pid] == if pid in Abs(t) && topic in Abs(t)[pid] then 1 else 0
  {
    RecipientsAt(t, topic, pid);
    AbsAt(t, pid);
  }
}
