/**
 * The scenarios of the service's unit tests, carried out on the model: the
 * contacts of Petrov and Ivanov with one mobile number each, added in that
 * order to a service over an empty store.
 */
module PhonebookScenarios {
  import opened Options
  import opened JavaStrings
  import opened PhoneTypes
  import opened PhoneNumbers
  import opened Contacts
  import opened PhonebookServices

  const IvanovName := "Иванов Иван Иванович"
  const PetrovName := "Петров Пётр Петрович"
  const IvanovPhone := "+79319222322"
  const PetrovPhone := "+79319222321"

  /** Numbers made of digits and '+', which lower-casing and space removal leave alone. */
  predicate Dialable(s: string)
  {
    forall c :: c in s ==> '0' <= c <= '9' || c == '+'
  }

  lemma DialableUnchanged(s: string)
    requires Dialable(s)
    ensures ToLower(s) == s && RemoveSpaces(ToLower(s)) == s
  {
    forall i | 0 <= i < |s| ensures ToLower(s)[i] == s[i] {
      assert s[i] in s;
    }
    RemoveSpacesNone(s);
  }

  lemma PrefixContains(a: string, b: string)
    ensures Contains(ToLower(a + b), ToLower(a))
  {
    ToLowerAppend(a, b);
    assert ToLower(a) <= ToLower(a + b)[0..];
  }

  lemma SuffixContains(a: string, b: string)
    ensures Contains(a + b, b)
  {
    assert b <= (a + b)[|a|..];
  }

  /** "Иван" occurs in Ivanov's name, ignoring case. */
  lemma IvanovNameMatches()
    ensures NameMatches(Some(IvanovName), "Иван")
  {
    PrefixContains("Иван", "ов Иван Иванович");
    assert IvanovName == "Иван" + "ов Иван Иванович";
  }

  /** Petrov's name has no 'а', so it cannot contain "Иван" in any case. */
  lemma PetrovNameDoesNotMatch()
    ensures !NameMatches(Some(PetrovName), "Иван")
  {
    ToLowerAt("Иван", 2);
    NotInToLower(PetrovName, 'а');
    NotContainsMissingChar(ToLower(PetrovName), ToLower("Иван"), 2);
  }

  /** A phone number of digits only never contains the Cyrillic query "Иван". */
  lemma DigitsDoNotMatchIvan(number: string)
    requires Dialable(number)
    ensures !PhoneMatches([PhoneNumber(number, Mobile)], "Иван")
  {
    DialableUnchanged(number);
    ToLowerAt("Иван", 0);
    var q := RemoveSpaces(ToLower("Иван"));
    assert ToLower("Иван")[0] in ToLower("Иван");
    var k :| 0 <= k < |q| && q[k] == 'и';
    assert 'и' !in number;
    NotContainsMissingChar(number, q, k);
  }

  /** No name without the digit '2' matches the query "2322". */
  lemma NameDoesNotMatch2322(name: string)
    requires '2' !in name
    ensures !NameMatches(Some(name), "2322")
  {
    DialableUnchanged("2322");
    NotInToLower(name, '2');
    NotContainsMissingChar(ToLower(name), "2322", 0);
  }

  /** A number of digits and '+' matches a query of the same kind exactly when it contains it. */
  lemma DialableMatches(number: string, q: string)
    requires Dialable(number) && Dialable(q)
    ensures PhoneMatches([PhoneNumber(number, Mobile)], q) <==> Contains(number, q)
  {
    DialableUnchanged(q);
    DialableUnchanged(number);
    assert PhoneNumber(number, Mobile) in [PhoneNumber(number, Mobile)];
  }

  /** "2322" ends Ivanov's number. */
  lemma IvanovPhoneMatches2322()
    ensures PhoneMatches([PhoneNumber(IvanovPhone, Mobile)], "2322")
  {
    SuffixContains("+7931922", "2322");
    assert IvanovPhone == "+7931922" + "2322";
    DialableMatches(IvanovPhone, "2322");
  }

  /** "2322" occurs nowhere in Petrov's number. */
  lemma PetrovPhoneLacks2322()
    ensures !Contains(PetrovPhone, "2322")
  {
    var s := PetrovPhone;
    forall i | 0 <= i <= |s| ensures !("2322" <= s[i..]) {
      if i < |s| - 3 {
        assert s[i..][..4] == s[i..i + 4];
        assert s[i + 1] != '3' || s[i + 3] != '2';
      }
    }
  }

  lemma PetrovPhoneDoesNotMatch2322()
    ensures !PhoneMatches([PhoneNumber(PetrovPhone, Mobile)], "2322")
  {
    PetrovPhoneLacks2322();
    DialableMatches(PetrovPhone, "2322");
  }

  /** The test helper `createContact`: a contact with one mobile number. */
  method CreateContact(name: string, number: string) returns (c: Contact)
    ensures fresh(c)
    ensures c.fullName == Some(name) && c.phones == [PhoneNumber(number, Mobile)]
  {
    c := new Contact(Some(name));
    c.AddPhone(PhoneNumber(number, Mobile));
  }

  /** `addContactAndGetAll`: the one added contact is the whole list. */
  method AddContactAndGetAll() returns (all: seq<Contact>)
    ensures |all| == 1 && all[0].fullName == Some(IvanovName)
  {
    var service := new PhonebookService([]);
    var ivanov := CreateContact(IvanovName, IvanovPhone);
    service.AddContact(ivanov);
    all := service.GetAllContacts();
  }

  /** Two strings whose first characters fold apart compare by those characters alone. */
  lemma CompareFirstDiffers(x: string, y: string)
    requires x != [] && y != [] && FoldChar(x[0]) != FoldChar(y[0])
    ensures CompareToIgnoreCase(x, y) == FoldChar(x[0]) as int - FoldChar(y[0]) as int
  {
  }

  /** Petrov's name sorts after Ivanov's: 'п' follows 'и'. */
  lemma PetrovAfterIvanov()
    ensures NameCompare(Some(PetrovName), Some(IvanovName)) == 7
  {
    assert PetrovName[0] == 'П' && IvanovName[0] == 'И';
    CompareFirstDiffers(PetrovName, IvanovName);
  }

  /** Sorting two contacts out of order swaps them. */
  lemma SortTwo(a: Contact, b: Contact)
    requires NameCompare(a.fullName, b.fullName) > 0
    ensures SortByName([a, b]) == [b, a]
  {
    assert [a, b][1..] == [b];
    assert [b][1..] == [];
    assert SortByName([b]) == Insert(b, []) == [b];
    assert Insert(a, [b]) == [b] + Insert(a, []);
  }

  /** Filtering two contacts of which only the second matches keeps that one. */
  lemma FilterTwo(a: Contact, b: Contact, q: string)
    requires !Matches(a, q) && Matches(b, q)
    ensures Filter([a, b], q) == [b]
  {
    assert [a, b][1..] == [b];
    assert [b][1..] == [];
    assert Filter([b], q) == [b];
  }

  /** `sortByName`: Ivanov sorts before Petrov although added after him. */
  method SortByNameScenario() returns (sorted: seq<Contact>)
    ensures |sorted| == 2
    ensures sorted[0].fullName == Some(IvanovName) && sorted[1].fullName == Some(PetrovName)
  {
    var service := new PhonebookService([]);
    var petrov := CreateContact(PetrovName, PetrovPhone);
    var ivanov := CreateContact(IvanovName, IvanovPhone);
    service.AddContact(petrov);
    service.AddContact(ivanov);
    sorted := service.GetSortedByName();
    PetrovAfterIvanov();
    SortTwo(petrov, ivanov);
  }

  /** The test's two contacts: Petrov's and Ivanov's, each with their mobile number. */
  predicate TestPair(petrov: Contact, ivanov: Contact)
    reads petrov, ivanov
  {
    && petrov.fullName == Some(PetrovName) && petrov.phones == [PhoneNumber(PetrovPhone, Mobile)]
    && ivanov.fullName == Some(IvanovName) && ivanov.phones == [PhoneNumber(IvanovPhone, Mobile)]
  }

  /** Of the test's two contacts, "Иван" keeps only Ivanov. */
  lemma NameQuerySelectsIvanov(petrov: Contact, ivanov: Contact)
    requires TestPair(petrov, ivanov)
    ensures Filter([petrov, ivanov], "Иван") == [ivanov]
  {
    PetrovNameDoesNotMatch();
    DigitsDoNotMatchIvan(PetrovPhone);
    IvanovNameMatches();
    FilterTwo(petrov, ivanov, "Иван");
  }

  /** Of the test's two contacts, "2322" keeps only Ivanov. */
  lemma PhoneQuerySelectsIvanov(petrov: Contact, ivanov: Contact)
    requires TestPair(petrov, ivanov)
    ensures Filter([petrov, ivanov], "2322") == [ivanov]
  {
    NameDoesNotMatch2322(PetrovName);
    NameDoesNotMatch2322(IvanovName);
    IvanovPhoneMatches2322();
    PetrovPhoneDoesNotMatch2322();
    FilterTwo(petrov, ivanov, "2322");
  }

  /** `searchByName`: "Иван" selects Ivanov only. */
  method SearchByNameScenario() returns (result: seq<Contact>)
    ensures |result| == 1 && result[0].fullName == Some(IvanovName)
  {
    var service := new PhonebookService([]);
    var petrov := CreateContact(PetrovName, PetrovPhone);
    var ivanov := CreateContact(IvanovName, IvanovPhone);
    service.AddContact(petrov);
    service.AddContact(ivanov);
    var q := "Иван";
    assert !IsWhitespace(q[0]);
    NameQuerySelectsIvanov(petrov, ivanov);
    result := service.Search(Some(q));
  }

  /** `searchByPhone`: "2322" selects the holder of +79319222322 only. */
  method SearchByPhoneScenario() returns (result: seq<Contact>)
    ensures |result| == 1 && result[0].fullName == Some(IvanovName)
  {
    var service := new PhonebookService([]);
    var petrov := CreateContact(PetrovName, PetrovPhone);
    var ivanov := CreateContact(IvanovName, IvanovPhone);
    service.AddContact(petrov);
    service.AddContact(ivanov);
    var q := "2322";
    assert !IsWhitespace(q[0]);
    PhoneQuerySelectsIvanov(petrov, ivanov);
    result := service.Search(Some(q));
  }
}
