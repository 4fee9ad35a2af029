/** The contact record shared by the list and the tree, and its order by (surname, name). */
module Contacts {
  import opened Text

  const MAX_STR := 50

  /** A C string kept in a `char[MAX_STR]`. */
  type Field = s: CString | |s| < MAX_STR witness []

  datatype Contact = Contact(
    surname: Field,
    name: Field,
    patronymic: Field,
    job: Field,
    position: Field,
    phones: seq<Field>,
    emails: seq<Field>,
    social: seq<Field>,
    messengers: seq<Field>)

  datatype Key = Key(surname: Field, name: Field)

  function KeyOf(c: Contact): Key {
    Key(c.surname, c.name)
  }

  /** `compare_contact` looks at nothing but the two key fields. */
  function Compare(a: Key, b: Key): int {
    var cmp := StrCmp(a.surname, b.surname);
    if cmp != 0 then cmp else StrCmp(a.name, b.name)
  }

  function CompareContact(a: Contact, b: Contact): int {
    Compare(KeyOf(a), KeyOf(b))
  }

  /** By surname, and by name among equal surnames. */
  ghost predicate ComesBefore(a: Contact, b: Contact) {
    Before(a.surname, b.surname) || (a.surname == b.surname && Before(a.name, b.name))
  }

  /** `compare_contact` is negative exactly for contacts in that order, and zero exactly for equal surnames
      and names. */
  lemma CompareIsOrder(a: Contact, b: Contact)
    ensures CompareContact(a, b) < 0 <==> ComesBefore(a, b)
    ensures CompareContact(a, b) == 0 <==> a.surname == b.surname && a.name == b.name
  {
    hide Before;
    StrCmpIsBefore(a.surname, b.surname);
    StrCmpIsBefore(a.name, b.name);
    StrCmpZero(a.surname, b.surname);
    StrCmpZero(a.name, b.name);
  }

  /** The key of a contact is its surname and its name. */
  lemma KeyIs(c: Contact, surname: Field, name: Field)
    ensures KeyOf(c) == Key(surname, name) <==> c.surname == surname && c.name == name
  {
  }

  lemma CompareZero(a: Key, b: Key)
    ensures Compare(a, b) == 0 <==> a == b
  {
    StrCmpZero(a.surname, b.surname);
    StrCmpZero(a.name, b.name);
  }

  lemma CompareAntisymmetric(a: Key, b: Key)
    ensures Compare(a, b) == -Compare(b, a)
  {
    StrCmpAntisymmetric(a.surname, b.surname);
    StrCmpAntisymmetric(a.name, b.name);
  }

  lemma CompareTransitive(a: Key, b: Key, c: Key)
    requires Compare(a, b) <= 0 && Compare(b, c) <= 0
    ensures Compare(a, c) <= 0
    ensures Compare(a, b) < 0 || Compare(b, c) < 0 ==> Compare(a, c) < 0
  {
    StrCmpZero(a.surname, b.surname);
    StrCmpZero(b.surname, c.surname);
    StrCmpZero(a.name, b.name);
    StrCmpZero(b.name, c.name);
    if StrCmp(a.surname, b.surname) < 0 && StrCmp(b.surname, c.surname) < 0 {
      StrCmpTransitive(a.surname, b.surname, c.surname);
    }
    if StrCmp(a.name, b.name) < 0 && StrCmp(b.name, c.name) < 0 {
      StrCmpTransitive(a.name, b.name, c.name);
    }
  }
}
