/**
 * `PhonebookService`: the in-memory directory of contacts. Every mutation
 * but an update that finds nothing writes the whole list through storage;
 * storage is represented by the log of snapshots it was handed.
 */
module PhonebookServices {
  import opened Options
  import opened JavaStrings
  import opened PhoneNumbers
  import opened Contacts

  /** The records storage serialises for a list of contacts, one per contact, in order. */
  ghost function Records(cs: seq<Contact>): (r: seq<ContactRecord>)
    reads cs
    ensures |r| == |cs|
    ensures forall i :: 0 <= i < |cs| ==> r[i] == cs[i].Record()
  {
    if cs == [] then [] else [cs[0].Record()] + Records(cs[1..])
  }

  /**
   * `List.indexOf(o)` under `Contact.equals`: the first position holding a
   * contact with the same name as `o`, or -1.
   */
  function IndexOf(cs: seq<Contact>, o: Contact): (i: int)
    reads cs, o
    ensures -1 <= i < |cs|
    ensures 0 <= i ==> cs[i].fullName == o.fullName
    ensures 0 <= i ==> forall j :: 0 <= j < i ==> cs[j].fullName != o.fullName
    ensures i == -1 <==> forall j :: 0 <= j < |cs| ==> cs[j].fullName != o.fullName
  {
    if cs == [] then -1
    else if o.Equals(cs[0]) then 0
    else
      var k := IndexOf(cs[1..], o);
      if k < 0 then -1 else k + 1
  }

  /** What `removeContact` leaves: the first contact named like `o` dropped, or the list as it was. */
  function RemoveByName(cs: seq<Contact>, o: Contact): (r: seq<Contact>)
    reads cs, o
    ensures |r| == if IndexOf(cs, o) < 0 then |cs| else |cs| - 1
    ensures forall x :: x in r ==> x in cs
    ensures forall x :: x in cs && x.fullName != o.fullName ==> x in r
  {
    var i := IndexOf(cs, o);
    if i < 0 then cs
    else
      var r := cs[..i] + cs[i + 1..];
      forall x | x in cs && x.fullName != o.fullName ensures x in r {
        var j :| 0 <= j < |cs| && cs[j] == x;
        if j < i {
          assert cs[..i][j] == x;
        } else {
          assert cs[i + 1..][j - i - 1] == x;
        }
      }
      r
  }

  /**
   * Which entry `List.remove` drops: with no contact named like `o` the list
   * is unchanged, and otherwise exactly one copy of the first such contact goes.
   */
  lemma RemoveByNameFirst(cs: seq<Contact>, o: Contact)
    ensures IndexOf(cs, o) < 0 ==> RemoveByName(cs, o) == cs
    ensures 0 <= IndexOf(cs, o) ==> multiset(RemoveByName(cs, o)) == multiset(cs) - multiset{cs[IndexOf(cs, o)]}
  {
    var i := IndexOf(cs, o);
    if 0 <= i {
      CutMultiset(cs, i);
    }
  }

  /** Cutting out position `i` takes away exactly one copy of the element there. */
  lemma CutMultiset<T>(s: seq<T>, i: nat)
    requires i < |s|
    ensures multiset(s[..i] + s[i + 1..]) == multiset(s) - multiset{s[i]}
  {
    assert s == s[..i] + [s[i]] + s[i + 1..];
  }

  /** `removeContact` undoes an `addContact` of a contact whose name was not yet listed. */
  lemma RemoveUndoesAdd(cs: seq<Contact>, c: Contact)
    requires forall j :: 0 <= j < |cs| ==> cs[j].fullName != c.fullName
    ensures IndexOf(cs + [c], c) == |cs|
    ensures RemoveByName(cs + [c], c) == cs
  {
    var s := cs + [c];
    assert s[|cs|].fullName == c.fullName;
    assert forall j :: 0 <= j < |cs| ==> s[j].fullName != c.fullName;
    assert s[..|cs|] == cs;
  }

  /** `r` is `s` with some elements deleted, the rest kept in order. */
  predicate IsSubsequence<T(==)>(r: seq<T>, s: seq<T>)
    decreases |s|
  {
    r == [] || (s != [] && (IsSubsequence(r, s[1..]) || (r[0] == s[0] && IsSubsequence(r[1..], s[1..]))))
  }

  /** The name condition of `search`: a non-null name whose lower case contains the lower-cased query, spaces kept. */
  predicate NameMatches(name: Option<string>, query: string)
  {
    name.Some? && Contains(ToLower(name.value), ToLower(query))
  }

  /** The phone condition of `search`: some number, lower-cased and without spaces, contains the query treated alike. */
  predicate PhoneMatches(phones: seq<PhoneNumber>, query: string)
  {
    exists p :: p in phones && Contains(RemoveSpaces(ToLower(p.number)), RemoveSpaces(ToLower(query)))
  }

  /** The filter `search` applies to one contact. */
  predicate Matches(c: Contact, query: string)
    reads c
  {
    NameMatches(c.fullName, query) || PhoneMatches(c.phones, query)
  }

  /** `stream().filter(...)`: the contacts that match, every occurrence kept, in their order. */
  function Filter(cs: seq<Contact>, query: string): (r: seq<Contact>)
    reads cs
    ensures IsSubsequence(r, cs)
    ensures forall c :: c in r ==> c in cs && Matches(c, query)
    ensures forall c :: c in cs ==> multiset(r)[c] == if Matches(c, query) then multiset(cs)[c] else 0
  {
    if cs == [] then []
    else
      var rest := Filter(cs[1..], query);
      assert cs == [cs[0]] + cs[1..];
      if Matches(cs[0], query) then
        assert ([cs[0]] + rest)[1..] == rest;
        [cs[0]] + rest
      else
        rest
  }

  /** `Comparator.nullsLast(String::compareToIgnoreCase)` applied to two names. */
  function NameCompare(a: Option<string>, b: Option<string>): (cmp: int)
  {
    match (a, b)
    case (None, None) => 0
    case (None, Some(_)) => 1
    case (Some(_), None) => -1
    case (Some(x), Some(y)) => CompareToIgnoreCase(x, y)
  }

  /** A null name sorts after every name; names compare ignoring case. */
  lemma NameCompareNullsLast(x: string, y: string)
    ensures NameCompare(Some(x), None) < 0 && NameCompare(None, Some(x)) > 0
    ensures NameCompare(None, None) == 0
    ensures NameCompare(Some(x), Some(y)) == 0 <==> EqualsIgnoreCase(x, y)
  {
    CompareToIgnoreCaseZero(x, y);
  }

  lemma NameCompareAntisymmetric(a: Option<string>, b: Option<string>)
    ensures NameCompare(a, b) == -NameCompare(b, a)
  {
    if a.Some? && b.Some? {
      CompareToIgnoreCaseAntisymmetric(a.value, b.value);
    }
  }

  lemma NameCompareTransitive(a: Option<string>, b: Option<string>, c: Option<string>)
    requires NameCompare(a, b) <= 0 && NameCompare(b, c) <= 0
    ensures NameCompare(a, c) <= 0
  {
    if a.Some? && b.Some? && c.Some? {
      CompareToIgnoreCaseTransitive(a.value, b.value, c.value);
    }
  }

  /** In non-decreasing order of name under `NameCompare`. */
  predicate SortedByName(s: seq<Contact>)
    reads s
  {
    forall i, j :: 0 <= i < j < |s| ==> NameCompare(s[i].fullName, s[j].fullName) <= 0
  }

  /** Inserts `c` before the first element it does not sort after. */
  function Insert(c: Contact, s: seq<Contact>): (r: seq<Contact>)
    reads c, s
    ensures multiset(r) == multiset(s) + multiset{c}
    ensures forall x :: x in r ==> x == c || x in s
  {
    if s == [] then [c]
    else if NameCompare(c.fullName, s[0].fullName) <= 0 then [c] + s
    else
      assert s == [s[0]] + s[1..];
      [s[0]] + Insert(c, s[1..])
  }

  /** A sorted list stays sorted under a new head that sorts before all of it. */
  lemma ConsSorted(x: Contact, s: seq<Contact>)
    requires SortedByName(s)
    requires forall y :: y in s ==> NameCompare(x.fullName, y.fullName) <= 0
    ensures SortedByName([x] + s)
  {
    var r := [x] + s;
    forall i, j | 0 <= i < j < |r| ensures NameCompare(r[i].fullName, r[j].fullName) <= 0 {
      assert r[j] == s[j - 1];
      if i == 0 {
        assert s[j - 1] in s;
      } else {
        assert r[i] == s[i - 1];
      }
    }
  }

  lemma {:induction false} InsertSorted(c: Contact, s: seq<Contact>)
    requires SortedByName(s)
    ensures SortedByName(Insert(c, s))
  {
    if s == [] {
    } else if NameCompare(c.fullName, s[0].fullName) <= 0 {
      forall y | y in s ensures NameCompare(c.fullName, y.fullName) <= 0 {
        var m :| 0 <= m < |s| && s[m] == y;
        if m > 0 {
          NameCompareTransitive(c.fullName, s[0].fullName, y.fullName);
        }
      }
      ConsSorted(c, s);
    } else {
      var tail := s[1..];
      var rest := Insert(c, tail);
      SortedTail(s);
      InsertSorted(c, tail);
      NameCompareAntisymmetric(c.fullName, s[0].fullName);
      forall y | y in rest ensures NameCompare(s[0].fullName, y.fullName) <= 0 {
        if y != c {
          var m :| 0 <= m < |tail| && tail[m] == y;
          assert s[m + 1] == y;
        }
      }
      ConsSorted(s[0], rest);
    }
  }

  /** The insertion sort that models the stable `sorted(...)` of a stream. */
  function SortByName(cs: seq<Contact>): (r: seq<Contact>)
    reads set x | x in cs
    ensures forall x :: x in r ==> x in cs
  {
    if cs == [] then []
    else
      var rest := SortByName(cs[1..]);
      assert cs == [cs[0]] + cs[1..];
      assert forall x :: x in rest ==> x in cs;
      Insert(cs[0], rest)
  }

  /** The sort rearranges its input: each contact occurs in the result as often as in the list. */
  lemma {:induction false} SortByNamePermutation(cs: seq<Contact>)
    ensures multiset(SortByName(cs)) == multiset(cs)
  {
    if cs != [] {
      SortByNamePermutation(cs[1..]);
      assert cs == [cs[0]] + cs[1..];
    }
  }

  lemma {:induction false} SortByNameSorted(cs: seq<Contact>)
    ensures SortedByName(SortByName(cs))
  {
    if cs != [] {
      SortByNameSorted(cs[1..]);
      InsertSorted(cs[0], SortByName(cs[1..]));
    }
  }

  /** The contacts of `s` whose name compares equal to `k`, in their order. */
  function Keep(s: seq<Contact>, k: Option<string>): (kept: seq<Contact>)
    reads s
  {
    if s == [] then [] else (if NameCompare(s[0].fullName, k) == 0 then [s[0]] else []) + Keep(s[1..], k)
  }

  lemma SortedTail(s: seq<Contact>)
    requires s != [] && SortedByName(s)
    ensures SortedByName(s[1..])
  {
    forall i, j | 0 <= i < j < |s| - 1 ensures NameCompare(s[1..][i].fullName, s[1..][j].fullName) <= 0 {
      assert s[1..][i] == s[i + 1] && s[1..][j] == s[j + 1];
    }
  }

  lemma KeepCons(x: Contact, s: seq<Contact>, k: Option<string>)
    ensures Keep([x] + s, k) == (if NameCompare(x.fullName, k) == 0 then [x] else []) + Keep(s, k)
  {
    assert ([x] + s)[1..] == s;
  }

  /** Two names that both compare equal to `k` compare equal to each other. */
  lemma NameCompareEquivalent(a: Option<string>, b: Option<string>, k: Option<string>)
    requires NameCompare(a, k) == 0 && NameCompare(b, k) == 0
    ensures NameCompare(a, b) == 0
  {
    NameCompareAntisymmetric(b, k);
    NameCompareTransitive(a, k, b);
    NameCompareAntisymmetric(a, k);
    NameCompareTransitive(b, k, a);
    NameCompareAntisymmetric(a, b);
  }

  /** An inserted element lands after the elements it sorts after, none of which ties with it. */
  lemma {:induction false} InsertKeep(c: Contact, s: seq<Contact>, k: Option<string>)
    ensures Keep(Insert(c, s), k) == (if NameCompare(c.fullName, k) == 0 then [c] else []) + Keep(s, k)
  {
    if s == [] {
      KeepCons(c, [], k);
    } else if NameCompare(c.fullName, s[0].fullName) <= 0 {
      KeepCons(c, s, k);
    } else {
      var s0, tail := s[0], s[1..];
      assert s == [s0] + tail;
      var rest := Insert(c, tail);
      assert Insert(c, s) == [s0] + rest;
      KeepCons(s0, rest, k);
      KeepCons(s0, tail, k);
      InsertKeep(c, tail, k);
      if NameCompare(c.fullName, k) == 0 && NameCompare(s0.fullName, k) == 0 {
        NameCompareEquivalent(c.fullName, s0.fullName, k);
        assert false;
      }
      if NameCompare(c.fullName, k) == 0 {
        assert Keep(s, k) == Keep(tail, k);
        assert Keep(Insert(c, s), k) == Keep(rest, k);
      } else {
        assert Keep(rest, k) == Keep(tail, k);
      }
    }
  }

  /** Stability: among contacts whose names compare equal, the sort keeps the original order. */
  lemma {:induction false} SortByNameStable(cs: seq<Contact>, k: Option<string>)
    ensures Keep(SortByName(cs), k) == Keep(cs, k)
  {
    if cs != [] {
      SortByNameStable(cs[1..], k);
      InsertKeep(cs[0], SortByName(cs[1..]), k);
    }
  }

  lemma SortByNameStableAll(cs: seq<Contact>)
    ensures forall k :: Keep(SortByName(cs), k) == Keep(cs, k)
  {
    forall k ensures Keep(SortByName(cs), k) == Keep(cs, k) {
      SortByNameStable(cs, k);
    }
  }

  class PhonebookService {
    var contacts: seq<Contact>
    /** Every list handed to storage so far, oldest first, as the records it serialised. */
    ghost var saves: seq<seq<ContactRecord>>

    /** The last save wrote exactly the current list. */
    ghost predicate Persisted()
      reads this, contacts
    {
      saves != [] && saves[|saves| - 1] == Records(contacts)
    }

    /** The service over the list storage loaded (empty when the file was missing or unreadable). */
    constructor (loaded: seq<Contact>)
      ensures contacts == loaded && saves == []
    {
      contacts := loaded;
      saves := [];
    }

    /** `getAllContacts`: the directory itself, in insertion order. */
    function GetAllContacts(): (r: seq<Contact>)
      reads this
      ensures r == contacts
    {
      contacts
    }

    /** `save`: the whole current list goes to storage. */
    method Save()
      modifies this`saves
      ensures saves == old(saves) + [Records(contacts)]
      ensures Persisted()
    {
      saves := saves + [Records(contacts)];
    }

    /** `addContact`: appended at the end, without a uniqueness check, then saved. */
    method AddContact(contact: Contact)
      modifies this
      ensures contacts == old(contacts) + [contact]
      ensures saves == old(saves) + [Records(contacts)]
      ensures Persisted()
    {
      contacts := contacts + [contact];
      Save();
    }

    /** `removeContact`: the first contact with the argument's name is dropped, if any; saved either way. */
    method RemoveContact(contact: Contact)
      modifies this
      ensures contacts == RemoveByName(old(contacts), contact)
      ensures saves == old(saves) + [Records(contacts)]
      ensures Persisted()
    {
      var i := IndexOf(contacts, contact);
      if i >= 0 {
        contacts := contacts[..i] + contacts[i + 1..];
      }
      Save();
    }

    /**
     * `updateContact`: the first contact with the old contact's name is
     * replaced and the list saved; when there is none, nothing changes and
     * nothing is saved.
     */
    method UpdateContact(oldContact: Contact, updatedContact: Contact)
      modifies this
      ensures var i := IndexOf(old(contacts), oldContact);
              && (i < 0 ==> contacts == old(contacts) && saves == old(saves))
              && (0 <= i ==> contacts == old(contacts)[i := updatedContact]
                             && saves == old(saves) + [Records(contacts)])
    {
      var index := IndexOf(contacts, oldContact);
      if index >= 0 {
        contacts := contacts[index := updatedContact];
        Save();
      }
    }

    /**
     * `search`: the whole list for a null or blank query; otherwise exactly
     * the contacts that match by name or by phone, in list order.
     */
    function Search(query: Option<string>): (r: seq<Contact>)
      reads this, contacts
      ensures query.None? || IsBlank(query.value) ==> r == contacts
      ensures query.Some? && !IsBlank(query.value) ==>
                && IsSubsequence(r, contacts)
                && (forall c :: c in r ==> c in contacts && Matches(c, query.value))
                && (forall c :: c in contacts ==>
                      multiset(r)[c] == if Matches(c, query.value) then multiset(contacts)[c] else 0)
    {
      if query.None? || IsBlank(query.value) then GetAllContacts()
      else Filter(contacts, query.value)
    }

    /**
     * `getSortedByName`: a new list holding the same contacts, ordered by
     * name ignoring case with null names last, equal names in list order.
     */
    function GetSortedByName(): (r: seq<Contact>)
      reads this, contacts
      ensures multiset(r) == multiset(contacts)
      ensures SortedByName(r)
      ensures forall k :: Keep(r, k) == Keep(contacts, k)
    {
      SortByNamePermutation(contacts);
      SortByNameSorted(contacts);
      SortByNameStableAll(contacts);
      SortByName(contacts)
    }
  }
}
