/** The echo server: a fixed table of client slots with holes, and one turn of its loop. */
module EchoServer {
  import opened Text
  import opened EchoPackets

  datatype Entry = Entry(client: Client, counter: nat, active: bool)

  /** What the server does with a packet. `Unsent` is a reply for which `sendto` fails, because with the IP
      header it would be longer than IPv4 can carry; the message has been counted by then. */
  datatype Outcome =
    | Ignored
    | Closed
    | Refused
    | TooLarge
    | Unsent(client: Client, counter: nat)
    | Sent(client: Client, counter: nat, datagram: seq<Byte>)

  // ---------- the map the slots stand for ----------

  ghost predicate Unique(es: seq<Entry>) {
    forall i, j :: 0 <= i < j < |es| && es[i].active && es[j].active ==> es[i].client != es[j].client
  }

  ghost function Table(es: seq<Entry>): map<Client, nat> {
    if es == [] then map[]
    else
      var m, e := Table(es[..|es| - 1]), es[|es| - 1];
      if e.active then m[e.client := e.counter] else m
  }

  /** Some slot is active for the client. */
  ghost predicate Holds(es: seq<Entry>, c: Client) {
    exists i :: 0 <= i < |es| && es[i].active && es[i].client == c
  }

  lemma {:induction false} TableHas(es: seq<Entry>, c: Client)
    ensures c in Table(es) <==> Holds(es, c)
  {
    if es != [] {
      TableHas(es[..|es| - 1], c);
      var e := es[|es| - 1];
      if e.active && e.client == c {
        assert es[|es| - 1].active;
      }
      if i :| 0 <= i < |es| - 1 && es[i].active && es[i].client == c {
        assert es[..|es| - 1][i] == es[i];
      }
    }
  }

  lemma {:induction false} TableAt(es: seq<Entry>, i: nat)
    requires Unique(es) && i < |es| && es[i].active
    ensures es[i].client in Table(es) && Table(es)[es[i].client] == es[i].counter
  {
    if i < |es| - 1 {
      TableAt(es[..|es| - 1], i);
    }
  }

  function ActiveCount(es: seq<Entry>): nat {
    if es == [] then 0 else ActiveCount(es[..|es| - 1]) + if es[|es| - 1].active then 1 else 0
  }

  lemma {:induction false} TableSize(es: seq<Entry>)
    requires Unique(es)
    ensures |Table(es)| == ActiveCount(es)
  {
    if es != [] {
      TableSize(es[..|es| - 1]);
      TableHas(es[..|es| - 1], es[|es| - 1].client);
    }
  }

  lemma {:induction false} ActiveCountFull(es: seq<Entry>)
    ensures ActiveCount(es) <= |es|
    ensures ActiveCount(es) == |es| <==> forall i :: 0 <= i < |es| ==> es[i].active
  {
    if es != [] {
      ActiveCountFull(es[..|es| - 1]);
    }
  }

  /** Rewriting slot `i`, which held an inactive entry or one of the same client. */
  lemma SlotWritten(es: seq<Entry>, i: nat, e: Entry)
    requires Unique(es) && i < |es| && e.active
    requires if es[i].active then es[i].client == e.client else e.client !in Table(es)
    ensures Unique(es[i := e]) && Table(es[i := e]) == Table(es)[e.client := e.counter]
  {
    var r := es[i := e];
    TableHas(es, e.client);
    assert Unique(r);
    forall c ensures c in Table(r) <==> c in Table(es) || c == e.client {
      TableHas(es, c);
      TableHas(r, c);
      SameElsewhere(es, i, e, c);
    }
    forall c | c in Table(r) ensures Table(r)[c] == Table(es)[e.client := e.counter][c] {
      TableHas(r, c);
      var j :| 0 <= j < |r| && r[j].active && r[j].client == c;
      TableAt(r, j);
      if j != i {
        TableAt(es, j);
      }
    }
  }

  lemma SameElsewhere(es: seq<Entry>, i: nat, e: Entry, c: Client)
    requires i < |es| && e.active && (es[i].active ==> es[i].client == e.client)
    ensures Holds(es[i := e], c) <==> Holds(es, c) || c == e.client
  {
    var r := es[i := e];
    if j :| 0 <= j < |es| && es[j].active && es[j].client == c {
      assert r[j].active && r[j].client == c;
    }
    if c == e.client {
      assert r[i].active && r[i].client == c;
    }
    if j :| 0 <= j < |es| && r[j].active && r[j].client == c {
      assert j != i ==> es[j].active && es[j].client == c;
    }
  }

  /** Making a slot a hole. */
  lemma SlotCleared(es: seq<Entry>, i: nat)
    requires Unique(es) && i < |es| && es[i].active
    ensures var r := es[i := es[i].(active := false)];
      Unique(r) && Table(r) == Table(es) - {es[i].client}
  {
    var r := es[i := es[i].(active := false)];
    forall c ensures c in Table(r) <==> c in Table(es) && c != es[i].client {
      TableHas(es, c);
      TableHas(r, c);
      if j :| 0 <= j < |r| && r[j].active && r[j].client == c {
        assert es[j].active && es[j].client == c;
      }
      if j :| 0 <= j < |es| && es[j].active && es[j].client == c && c != es[i].client {
        assert r[j].active && r[j].client == c;
      }
    }
    forall c | c in Table(r) ensures Table(r)[c] == Table(es)[c] {
      TableHas(r, c);
      var j :| 0 <= j < |r| && r[j].active && r[j].client == c;
      TableAt(r, j);
      TableAt(es, j);
    }
  }

  // ---------- what the server should do ----------

  /** The effect of a packet on the map. A new client is refused only when all the slots are in use. */
  function Serve(m: map<Client, nat>, p: Packet): map<Client, nat> {
    match p
    case Dropped => m
    case Close(c) => m - {c}
    case Data(c, _) =>
      if c in m then m[c := m[c] + 1] else if |m| < MAX_CLIENTS then m[c := 1] else m
  }

  /** `sendto`, with the IP header the system puts in front. */
  function Sending(c: Client, data: seq<Byte>, counter: nat): Outcome {
    var d := Datagram(c, data, counter);
    if IP_HEADER + |d| <= MAX_PACKET then Sent(c, counter, d) else Unsent(c, counter)
  }

  function Answer(m: map<Client, nat>, p: Packet): Outcome {
    match p
    case Dropped => Ignored
    case Close(_) => Closed
    case Data(c, data) =>
      var after := Serve(m, p);
      if c !in after then Refused
      else if !Fits(data, after[c]) then TooLarge
      else Sending(c, data, after[c])
  }

  // ---------- the server ----------

  class Server {
    const clients: array<Entry>

    ghost predicate Valid()
      reads this, clients
    {
      clients.Length == MAX_CLIENTS && Unique(clients[..])
    }

    ghost function Counters(): map<Client, nat>
      reads this, clients
    {
      Table(clients[..])
    }

    constructor ()
      ensures Valid() && fresh(clients) && Counters() == map[]
    {
      clients := new Entry[MAX_CLIENTS](_ => Entry(Client([], []), 0, false));
      new;
      forall c ensures c !in Counters() {
        TableHas(clients[..], c);
      }
    }

    /** The first active slot of a client, or -1. */
    method FindActive(c: Client) returns (idx: int)
      requires Valid()
      ensures -1 <= idx < MAX_CLIENTS && (idx == -1 <==> c !in Counters())
      ensures idx >= 0 ==> clients[idx].active && clients[idx].client == c && Counters()[c] == clients[idx].counter
    {
      TableHas(clients[..], c);
      for i := 0 to MAX_CLIENTS
        invariant forall j :: 0 <= j < i ==> !(clients[j].active && clients[j].client == c)
      {
        if clients[i].active && clients[i].client == c {
          assert clients[..][i].active;
          TableAt(clients[..], i);
          return i;
        }
      }
      idx := -1;
    }

    /** The loop that opens a slot: the first hole, or -1 when there is none. */
    method OpenSlot(c: Client) returns (idx: int)
      requires Valid() && c !in Counters()
      modifies clients
      ensures Valid() && -1 <= idx < MAX_CLIENTS
      ensures idx == -1 <==> |old(Counters())| == MAX_CLIENTS
      ensures idx == -1 ==> Counters() == old(Counters())
      ensures idx >= 0 ==> clients[idx] == Entry(c, 0, true) && Counters() == old(Counters())[c := 0]
      ensures |old(Counters())| <= MAX_CLIENTS
    {
      TableSize(clients[..]);
      ActiveCountFull(clients[..]);
      for i := 0 to MAX_CLIENTS
        invariant forall j :: 0 <= j < i ==> clients[j].active
        invariant clients[..] == old(clients[..])
      {
        if !clients[i].active {
          assert !clients[..][i].active;
          SlotWritten(clients[..], i, Entry(c, 0, true));
          clients[i] := Entry(c, 0, true);
          assert clients[..] == old(clients[..])[i := Entry(c, 0, true)];
          return i;
        }
      }
      assert forall i :: 0 <= i < |clients[..]| ==> clients[..][i].active;
      idx := -1;
    }

    /** The CLOSE branch. */
    method CloseClient(c: Client)
      requires Valid()
      modifies clients
      ensures Valid() && Counters() == old(Counters()) - {c}
    {
      var idx := FindActive(c);
      if idx >= 0 {
        SlotCleared(clients[..], idx);
        ghost var before := clients[..];
        clients[idx] := clients[idx].(active := false);
        assert clients[..] == before[idx := before[idx].(active := false)];
      }
    }

    /** Finds or opens the client's slot and counts the message; the new count, or 0 without a slot. */
    method CountMessage(c: Client) returns (counter: nat)
      requires Valid()
      requires c in Counters() ==> Counters()[c] < INT_MAX
      modifies clients
      ensures Valid() && Counters() == Serve(old(Counters()), Data(c, []))
      ensures counter == if c in Counters() then Counters()[c] else 0
    {
      hide Unique, Table;
      var idx := FindActive(c);
      if idx == -1 {
        idx := OpenSlot(c);
        if idx == -1 {
          return 0;
        }
        TableAt(clients[..], idx);
      }
      ghost var before := clients[..];
      var e := clients[idx];
      SlotWritten(before, idx, e.(counter := e.counter + 1));
      clients[idx] := e.(counter := e.counter + 1);
      assert clients[..] == before[idx := e.(counter := e.counter + 1)];
      counter := clients[idx].counter;
    }

    /** One turn of the loop of `main`, for `n` bytes received into `buffer`; counters stay ints. */
    method Handle(buffer: seq<Byte>, n: nat) returns (r: Outcome)
      requires Valid() && |buffer| == BUFFER_SIZE && n <= BUFFER_SIZE
      requires forall c :: c in Counters() ==> Counters()[c] < INT_MAX
      modifies clients
      ensures Valid()
      ensures Counters() == Serve(old(Counters()), ReadPacket(buffer, n))
      ensures r == Answer(old(Counters()), ReadPacket(buffer, n))
    {
      hide Unique, Table, ReadPacket, Fits, Datagram;
      match ReadPacket(buffer, n)
      case Dropped => r := Ignored;
      case Close(c) =>
        CloseClient(c);
        r := Closed;
      case Data(c, data) =>
        var counter := CountMessage(c);
        if counter == 0 {
          r := Refused;
        } else if !Fits(data, counter) {
          r := TooLarge;
        } else {
          var d := Datagram(c, data, counter);
          if IP_HEADER + |d| <= MAX_PACKET {
            r := Sent(c, counter, d);
          } else {
            r := Unsent(c, counter);
          }
        }
    }
  }
}
