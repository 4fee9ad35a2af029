/** The contact list over whole runs of insertions and deletions. */
module ListRuns {
  import opened Contacts
  import opened ContactList
  import opened Lists

  /** `DeleteOp` deletes the node at an index, as `delete_node` does for a node found before; with no
      node there it does nothing, as for null. */
  datatype Op = InsertOp(contact: Contact) | DeleteOp(at: nat)

  datatype History = History(list: seq<Contact>, inserted: multiset<Contact>, deleted: multiset<Contact>)

  function Do(h: History, op: Op): History {
    match op
    case InsertOp(c) => History(Inserted(h.list, InsertPosition(h.list, c), c), h.inserted + multiset{c}, h.deleted)
    case DeleteOp(p) =>
      if p < |h.list| then History(Removed(h.list, p), h.inserted, h.deleted + multiset{h.list[p]}) else h
  }

  function Run(ops: seq<Op>): History {
    if ops == [] then History([], multiset{}, multiset{}) else Do(Run(ops[..|ops| - 1]), ops[|ops| - 1])
  }

  /** Sorted lists are those in which no contact comes before an earlier one. */
  lemma SortedIsOrder(s: seq<Contact>)
    ensures Sorted(s) <==> forall i, j :: 0 <= i < j < |s| ==> !ComesBefore(s[j], s[i])
  {
    hide CompareContact, ComesBefore;
    forall i, j | 0 <= i < j < |s| ensures CompareContact(s[i], s[j]) <= 0 <==> !ComesBefore(s[j], s[i]) {
      CompareIsOrder(s[j], s[i]);
      ContactAntisymmetric(s[i], s[j]);
    }
  }

  lemma ContactAntisymmetric(a: Contact, b: Contact)
    ensures CompareContact(a, b) == -CompareContact(b, a)
  {
    CompareAntisymmetric(KeyOf(a), KeyOf(b));
  }

  /** Over every run the list is sorted by (surname, name) and holds what was inserted and not deleted,
      copies of equal contacts included. */
  lemma {:induction false} SortedAndComplete(ops: seq<Op>)
    ensures var h := Run(ops); Sorted(h.list) && h.inserted == multiset(h.list) + h.deleted
    ensures var s := Run(ops).list; forall i, j :: 0 <= i < j < |s| ==> !ComesBefore(s[j], s[i])
  {
    hide Sorted, Inserted, Removed, InsertPosition, ComesBefore;
    SortedIsOrder([]);
    if ops != [] {
      var h := Run(ops[..|ops| - 1]);
      SortedAndComplete(ops[..|ops| - 1]);
      match ops[|ops| - 1]
      case InsertOp(c) => InsertKeepsSorted(h.list, c);
      case DeleteOp(p) =>
        if p < |h.list| {
          RemoveKeepsSorted(h.list, p);
        }
    }
    SortedIsOrder(Run(ops).list);
  }

  /** Searching after inserting a second contact with a key: the new contact is the one found, unless the
      head already had the key; then the head is still the one found. */
  lemma FoundAfterInsert(s: seq<Contact>, c: Contact)
    requires Sorted(s)
    ensures var r := Inserted(s, InsertPosition(s, c), c);
      var i := FirstWith(r, KeyOf(c));
      && i < |r|
      && (if s != [] && KeyOf(s[0]) == KeyOf(c) then i == 0 && r[0] == s[0] else i == InsertPosition(s, c) && r[i] == c)
  {
    hide InsertPosition, Inserted;
    var key := KeyOf(c);
    var p := InsertPosition(s, c);
    var r := Inserted(s, p, c);
    InsertedElement(s, p, c, 0);
    InsertedElement(s, p, c, p);
    if s != [] {
      EqualKeyPlace(s, c);
      CompareZero(key, KeyOf(s[0]));
    } else {
      FrontPosition(s, c);
    }
    if s != [] && KeyOf(s[0]) == key {
      FirstIs(r, key, 0);
    } else {
      forall j | 0 <= j < p ensures KeyOf(r[j]) != key {
        InsertedElement(s, p, c, j);
        CompareZero(key, KeyOf(s[j]));
      }
      FirstIs(r, key, p);
    }
  }
}
