# Phonebook directory service, modelled in Dafny

This project models the core of a small desktop phonebook.

- `PhonebookService` owns an ordered, in-memory list of contacts. Contacts can be added, removed and updated. The list can be searched by part of a name or of a phone number, and sorted by name.
- Every change is written through storage, except an update that finds nothing to update.
- A `Contact` is a mutable entry: a possibly-null full name and an ordered list of phone numbers. Contacts are equal when their names are equal. That equality drives removal and update in the service.
- A `PhoneNumber` is a number string with a `PhoneType`.
- `PhoneType` is one of four categories, each with a Russian display label. `fromDisplay` maps a label back to its category, falling back to MOBILE.

The files:

| file | module | models |
|---|---|---|
| `options.dfy` | `Options` | a nullable reference as `Option` |
| `text.dfy` | `JavaStrings` | the `java.lang.String` operations the core relies on: `toLowerCase`, `trim`, `isBlank`, `replace(" ", "")`, `contains`, `equalsIgnoreCase`, `compareToIgnoreCase` |
| `phone_type.dfy` | `PhoneTypes` | `PhoneType` |
| `phone_number.dfy` | `PhoneNumbers` | `PhoneNumber` |
| `contact.dfy` | `Contacts` | `Contact` and the list operations it uses (`List.remove`, the `map`/`reduce` join) |
| `phonebook_service.dfy` | `PhonebookServices` | `PhonebookService`, `List.indexOf` under `Contact.equals`, the stream filter and the stable sort |
| `phonebook_scenarios.dfy` | `PhonebookScenarios` | the four service unit tests, carried out on the model |

How the source's shapes are represented:

- Where the source changes state, the model does too, except `PhoneNumber`'s setters (see below). `Contact` and `PhonebookService` are classes whose methods update their fields.
- The Java `ArrayList` fields are `seq` fields that the methods reassign.
- `search` and `getSortedByName` build new lists from streams, so they are functions. So are `equals`, `toString`, `phonesAsString` and `fromDisplay`.
- `PhoneNumber` is a datatype, and its setters return the updated value.
- Storage is represented by a ghost log, `saves`. Each `save()` appends the records of the whole current list to it.
- The constructor takes the list that storage loaded as a parameter.
- `Stream.sorted` on the list's ordered stream is a stable sort, and `Collectors.toList()` only collects its result. The sort is modelled as an insertion sort, which is stable.
- `Stream.reduce(BinaryOperator)`, which returns an `Optional`, is modelled as a left fold. It is proved equal to the right-nested join `Joined`, which serves as the reference definition.

## Model

| member | source | states |
|---|---|---|
| PhonebookServices.PhonebookService.constructor | demo111/src/main/java/com/example/phonebook/service/PhonebookService.java:36-41 | the directory starts as exactly the loaded list, with nothing saved yet |
| PhonebookServices.PhonebookService.GetAllContacts | demo111/src/main/java/com/example/phonebook/service/PhonebookService.java:47-49 | the result is the directory itself, in insertion order |
| PhonebookServices.PhonebookService.Save | demo111/src/main/java/com/example/phonebook/service/PhonebookService.java:136-138 | one snapshot is added to the save log: the records of the whole current list; afterwards the last snapshot equals the list |
| PhonebookServices.PhonebookService.AddContact | demo111/src/main/java/com/example/phonebook/service/PhonebookService.java:55-59 | the argument is appended at the end and every earlier entry is kept; then exactly one save of the new list happens |
| PhonebookServices.PhonebookService.RemoveContact | demo111/src/main/java/com/example/phonebook/service/PhonebookService.java:65-69 | the new list is `RemoveByName` of the old one: exactly the first entry whose name equals the argument's is removed, and with no such entry the list is unchanged; one save happens in both cases |
| PhonebookServices.RemoveByName | demo111/src/main/java/com/example/phonebook/service/PhonebookService.java:65-66 | `List.remove` under name equality: the list is one shorter exactly when some entry has the argument's name; every surviving entry comes from the list, and every entry with a different name survives |
| PhonebookServices.PhonebookService.UpdateContact | demo111/src/main/java/com/example/phonebook/service/PhonebookService.java:76-87 | with a match, the slot of the first entry named like the old contact is overwritten and one save happens, all other slots and the length unchanged; with no match, neither the list nor the save log changes |
| PhonebookServices.PhonebookService.Search | demo111/src/main/java/com/example/phonebook/service/PhonebookService.java:95-119 | a null or blank query returns the whole list; any other query returns an order-preserving subsequence that holds exactly the matching contacts, each as often as in the list |
| PhonebookServices.PhonebookService.GetSortedByName | demo111/src/main/java/com/example/phonebook/service/PhonebookService.java:125-131 | the result is a permutation of the list, ordered by name ignoring case with null names last, and the contacts with equal names keep their list order |
| PhonebookServices.IndexOf | demo111/src/main/java/com/example/phonebook/service/PhonebookService.java:77 | `indexOf` under name equality: either the first position whose name equals the argument's, or -1 exactly when no entry has that name |
| PhonebookServices.RemoveByNameFirst | demo111/src/main/java/com/example/phonebook/service/PhonebookService.java:65-66 | with no entry named like the argument the list comes back unchanged; otherwise exactly one copy of the first such entry, the one `IndexOf` finds, is taken away |
| PhonebookServices.RemoveUndoesAdd | demo111/src/main/java/com/example/phonebook/service/PhonebookService.java:55-69 | when no entry has the contact's name, the appended contact is the first match, and `RemoveByName` of the extended list, the list `removeContact` leaves, is the previous list |
| PhonebookServices.Filter | demo111/src/main/java/com/example/phonebook/service/PhonebookService.java:102-118 | the stream filter keeps the matching contacts in order and drops all others |
| PhonebookServices.NameCompareNullsLast | demo111/src/main/java/com/example/phonebook/service/PhonebookService.java:127-129 | a null name sorts after every name and ties with another null; two names tie exactly when they are equal ignoring case |
| PhonebookServices.NameCompareAntisymmetric | demo111/src/main/java/com/example/phonebook/service/PhonebookService.java:127-129 | swapping the arguments of the name comparator negates its result |
| PhonebookServices.NameCompareTransitive | demo111/src/main/java/com/example/phonebook/service/PhonebookService.java:127-129 | the name comparator's "not after" relation is transitive, so the sort order is a total preorder |
| PhonebookServices.Insert | demo111/src/main/java/com/example/phonebook/service/PhonebookService.java:126-130 | one insertion step of the stable sort adds exactly the one element |
| PhonebookServices.ConsSorted | demo111/src/main/java/com/example/phonebook/service/PhonebookService.java:126-130 | a sorted list stays sorted under a new head that sorts before all of it |
| PhonebookServices.InsertSorted | demo111/src/main/java/com/example/phonebook/service/PhonebookService.java:126-130 | inserting into a sorted list keeps it sorted |
| PhonebookServices.InsertKeep | demo111/src/main/java/com/example/phonebook/service/PhonebookService.java:126-130 | an inserted element goes in front of the elements that compare equal to it, so the order within each class of equal names is kept |
| PhonebookServices.SortByName | demo111/src/main/java/com/example/phonebook/service/PhonebookService.java:126-130 | the sorted list holds only contacts of the input |
| PhonebookServices.SortByNamePermutation | demo111/src/main/java/com/example/phonebook/service/PhonebookService.java:126-130 | the sorted list is a permutation of the input: every contact occurs as often as in the list |
| PhonebookServices.SortByNameSorted | demo111/src/main/java/com/example/phonebook/service/PhonebookService.java:126-130 | the sorted list is ordered by name with nulls last |
| PhonebookServices.SortByNameStable | demo111/src/main/java/com/example/phonebook/service/PhonebookService.java:126-130 | for each name, the contacts carrying an equal name appear in the sorted list in their original order |
| PhonebookServices.SortedTail | demo111/src/main/java/com/example/phonebook/service/PhonebookService.java:126-130 | dropping the head of a sorted list leaves it sorted |
| PhonebookServices.KeepCons | demo111/src/main/java/com/example/phonebook/service/PhonebookService.java:126-130 | the contacts of one name class in a list with a new head: the head, if it belongs to the class, then the class in the tail |
| PhonebookServices.NameCompareEquivalent | demo111/src/main/java/com/example/phonebook/service/PhonebookService.java:127-129 | two names that tie with a third tie with each other (the comparator gives 0) |
| PhonebookServices.SortByNameStableAll | demo111/src/main/java/com/example/phonebook/service/PhonebookService.java:126-130 | the sort is stable for every name at once |
| PhonebookServices.Records | demo111/src/main/java/com/example/phonebook/service/PhonebookService.java:136-138 | what a save writes is one record per contact, in list order, each holding that contact's name and phones |
| Contacts.Contact.constructor | demo111/src/main/java/com/example/phonebook/model/Contact.java:16-25 | a new contact has the given name and no phones |
| Contacts.Contact.SetFullName | demo111/src/main/java/com/example/phonebook/model/Contact.java:39-41 | only the name changes; the phones stay |
| Contacts.Contact.AddPhone | demo111/src/main/java/com/example/phonebook/model/Contact.java:56-58 | the number is appended after the existing phones and the name stays; the phone string grows by "; " and the new rendering, or becomes that rendering when there were no phones |
| Contacts.Contact.RemovePhone | demo111/src/main/java/com/example/phonebook/model/Contact.java:64-66 | the first phone equal in number and type is removed, nothing with none equal; the name stays |
| Contacts.Contact.Equals | demo111/src/main/java/com/example/phonebook/model/Contact.java:94-99 | two contacts are equal exactly when their names are equal, null equal to null; phones are ignored |
| Contacts.Contact.Record | demo111/src/main/java/com/example/phonebook/model/Contact.java:14-17 | the serialised form of a contact carries its name and its phones |
| Contacts.PhonesAsStringJoins | demo111/src/main/java/com/example/phonebook/model/Contact.java:73-78 | the phone string is "" with no phones, the single rendering with one phone, and otherwise every phone's rendering in list order separated by "; " |
| Contacts.ToStringLayout | demo111/src/main/java/com/example/phonebook/model/Contact.java:85-87 | the rendering is the name ("null" for none), " (", exactly the phone string, and ")" |
| Contacts.FirstIndex | demo111/src/main/java/com/example/phonebook/model/Contact.java:64-66 | the position of the first element equal to the argument, or the length when none is |
| Contacts.RemoveFirst | demo111/src/main/java/com/example/phonebook/model/Contact.java:64-66 | `List.remove` shortens the list by one when the element is present, and leaves the list unchanged otherwise |
| Contacts.RemoveFirstMultiset | demo111/src/main/java/com/example/phonebook/model/Contact.java:64-66 | `List.remove` takes away exactly one copy of the element when there is one, and nothing else |
| Contacts.RemoveFirstAt | demo111/src/main/java/com/example/phonebook/model/Contact.java:64-66 | when the element is present, `List.remove` leaves everything before its first occurrence and everything after it |
| Contacts.RemoveFirstPastPrefix | demo111/src/main/java/com/example/phonebook/model/Contact.java:64-66 | removal leaves a prefix that lacks the element untouched |
| Contacts.RemoveFirstUndoesAppend | demo111/src/main/java/com/example/phonebook/model/Contact.java:56-66 | `removePhone` undoes an `addPhone` of a number the contact did not already have |
| Contacts.Render | demo111/src/main/java/com/example/phonebook/model/Contact.java:74-75 | the `map` step yields each phone's rendering, in list order |
| Contacts.JoinedSnoc | demo111/src/main/java/com/example/phonebook/model/Contact.java:76 | appending one element to the reference join adds "; " and that element at the end |
| Contacts.ReduceJoinIsJoined | demo111/src/main/java/com/example/phonebook/model/Contact.java:76 | the left fold of `reduce` equals the reference join |
| PhoneNumbers.PhoneNumber.SetNumber | demo111/src/main/java/com/example/phonebook/model/PhoneNumber.java:41-43 | the number is replaced and the type kept |
| PhoneNumbers.PhoneNumber.SetType | demo111/src/main/java/com/example/phonebook/model/PhoneNumber.java:57-59 | the type is replaced and the number kept |
| PhoneNumbers.PhoneNumber.Equals | demo111/src/main/java/com/example/phonebook/model/PhoneNumber.java:75-80 | two phone numbers are equal exactly when both their numbers and their types agree |
| PhoneNumbers.EqualsReflexiveSymmetric | demo111/src/main/java/com/example/phonebook/model/PhoneNumber.java:76-79 | phone-number equality is reflexive and symmetric |
| PhoneNumbers.SettersOverwrite | demo111/src/main/java/com/example/phonebook/model/PhoneNumber.java:41-59 | setting a field to its current value changes nothing; the last write wins; the two setters commute; setting the number keeps a number equal exactly when the value is unchanged |
| PhoneNumbers.ToStringLayout | demo111/src/main/java/com/example/phonebook/model/PhoneNumber.java:64-67 | the rendering is the enum constant's name, ": " and the number; it does not start with the display label |
| PhoneNumbers.ToStringInjective | demo111/src/main/java/com/example/phonebook/model/PhoneNumber.java:64-67 | distinct phone numbers render differently |
| PhoneTypes.ValuesComplete | demo111/src/main/java/com/example/phonebook/model/PhoneType.java:9-21 | `values()`, the constant `Values`, holds exactly the four variants, in declaration order, each once |
| PhoneTypes.DisplayNamesDistinct | demo111/src/main/java/com/example/phonebook/model/PhoneType.java:12-40 | no two display labels are equal ignoring case |
| PhoneTypes.FirstLabelIndex | demo111/src/main/java/com/example/phonebook/model/PhoneType.java:54-58 | the loop over `values()` stops at the first variant whose label equals the text ignoring case, or runs off the end when none does |
| PhoneTypes.FromDisplay | demo111/src/main/java/com/example/phonebook/model/PhoneType.java:49-60 | null gives MOBILE; any other text gives MOBILE or a variant whose label equals the trimmed text ignoring case |
| PhoneTypes.FromDisplayMatch | demo111/src/main/java/com/example/phonebook/model/PhoneType.java:53-58 | a text whose trimmed form matches a label ignoring case yields that label's variant |
| PhoneTypes.FromDisplayUnrecognised | demo111/src/main/java/com/example/phonebook/model/PhoneType.java:59 | text that matches no label after trimming yields MOBILE |
| PhoneTypes.FromDisplayRoundTrip | demo111/src/main/java/com/example/phonebook/model/PhoneType.java:38-60 | `fromDisplay(t.getDisplayName()) == t` for every variant, also when the label is padded with spaces or control characters |
| JavaStrings.ToLower | demo111/src/main/java/com/example/phonebook/service/PhonebookService.java:100-111 | lower-casing keeps the length |
| JavaStrings.ToLowerAppend | demo111/src/main/java/com/example/phonebook/service/PhonebookService.java:106 | lower-casing works character by character, so it distributes over concatenation |
| JavaStrings.NotInToLower | demo111/src/main/java/com/example/phonebook/service/PhonebookService.java:106 | a character that no character of the text lower-cases to does not occur in its lower case |
| JavaStrings.RemoveSpaces | demo111/src/main/java/com/example/phonebook/service/PhonebookService.java:100-112 | `replace(" ", "")` leaves no U+0020, and a character occurs in the result exactly when it is a non-space character of the text |
| JavaStrings.RemoveSpacesMultiset | demo111/src/main/java/com/example/phonebook/service/PhonebookService.java:100-112 | every non-space character is kept as often as it occurs, and every U+0020 is dropped |
| JavaStrings.RemoveSpacesAppend | demo111/src/main/java/com/example/phonebook/service/PhonebookService.java:100-112 | space removal distributes over concatenation, so the kept characters stay in their order |
| JavaStrings.RemoveSpacesNone | demo111/src/main/java/com/example/phonebook/service/PhonebookService.java:112 | a text without spaces is left as it is |
| JavaStrings.NotContainsMissingChar | demo111/src/main/java/com/example/phonebook/service/PhonebookService.java:106-113 | a text lacking one of the query's characters does not contain the query |
| JavaStrings.Trim | demo111/src/main/java/com/example/phonebook/model/PhoneType.java:53 | the result is a slice of the text that neither starts nor ends with a character at or below U+0020, and everything cut off is at or below U+0020 |
| JavaStrings.TrimPadded | demo111/src/main/java/com/example/phonebook/model/PhoneType.java:53 | `trim` removes exactly the padding around an already trimmed text |
| JavaStrings.EqualsIgnoreCaseIsFold | demo111/src/main/java/com/example/phonebook/model/PhoneType.java:55 | two strings are equal ignoring case exactly when their case folds agree |
| JavaStrings.CompareToIgnoreCaseIsLex | demo111/src/main/java/com/example/phonebook/service/PhonebookService.java:129 | `compareToIgnoreCase` is the lexicographic comparison of the folded strings |
| JavaStrings.CompareToIgnoreCaseZero | demo111/src/main/java/com/example/phonebook/service/PhonebookService.java:129 | `compareToIgnoreCase` is zero exactly when `equalsIgnoreCase` holds |
| JavaStrings.CompareToIgnoreCaseAntisymmetric | demo111/src/main/java/com/example/phonebook/service/PhonebookService.java:129 | swapping the arguments negates the result |
| JavaStrings.CompareToIgnoreCaseTransitive | demo111/src/main/java/com/example/phonebook/service/PhonebookService.java:129 | "not after" under `compareToIgnoreCase` is transitive |
| JavaStrings.LexCompareAntisymmetric | demo111/src/main/java/com/example/phonebook/service/PhonebookService.java:129 | swapping the arguments of the lexicographic comparison negates its result |
| JavaStrings.LexCompareZero | demo111/src/main/java/com/example/phonebook/service/PhonebookService.java:129 | the lexicographic comparison is zero exactly for equal sequences |
| JavaStrings.LexCompareTransitive | demo111/src/main/java/com/example/phonebook/service/PhonebookService.java:129 | the lexicographic "not after" relation is transitive |
| PhonebookScenarios.CreateContact | demo111/src/test/java/com/example/phonebook/service/PhonebookServiceTest.java:58-62 | the test helper builds a new contact with the given name and one mobile number |
| PhonebookScenarios.AddContactAndGetAll | demo111/src/test/java/com/example/phonebook/service/PhonebookServiceTest.java:74-83 | after one contact is added to an empty directory, the list holds exactly that contact |
| PhonebookScenarios.SortByNameScenario | demo111/src/test/java/com/example/phonebook/service/PhonebookServiceTest.java:94-107 | Иванов sorts before Петров although Петров was added first |
| PhonebookScenarios.PetrovAfterIvanov | demo111/src/test/java/com/example/phonebook/service/PhonebookServiceTest.java:105-106 | Петров's name compares after Иванов's ignoring case |
| PhonebookScenarios.SearchByNameScenario | demo111/src/test/java/com/example/phonebook/service/PhonebookServiceTest.java:114-126 | the query "Иван" selects only Иванов |
| PhonebookScenarios.IvanovNameMatches | demo111/src/test/java/com/example/phonebook/service/PhonebookServiceTest.java:122-125 | "Иван" occurs in Иванов's name ignoring case |
| PhonebookScenarios.PetrovNameDoesNotMatch | demo111/src/test/java/com/example/phonebook/service/PhonebookServiceTest.java:122-125 | "Иван" does not occur in Петров's name in any case |
| PhonebookScenarios.DigitsDoNotMatchIvan | demo111/src/test/java/com/example/phonebook/service/PhonebookServiceTest.java:122-125 | a number of digits and '+' never matches "Иван" |
| PhonebookScenarios.SearchByPhoneScenario | demo111/src/test/java/com/example/phonebook/service/PhonebookServiceTest.java:133-145 | the query "2322" selects only the holder of +79319222322 |
| PhonebookScenarios.NameDoesNotMatch2322 | demo111/src/test/java/com/example/phonebook/service/PhonebookServiceTest.java:141-144 | a name without the digit 2 never matches "2322" |
| PhonebookScenarios.DialableMatches | demo111/src/main/java/com/example/phonebook/service/PhonebookService.java:108-114 | a number made of digits and '+' matches a query of the same kind exactly when it contains the query |
| PhonebookScenarios.SuffixContains | demo111/src/main/java/com/example/phonebook/service/PhonebookService.java:113 | a string contains each of its suffixes |
| PhonebookScenarios.PetrovPhoneLacks2322 | demo111/src/test/java/com/example/phonebook/service/PhonebookServiceTest.java:135 | the string 2322 does not occur in +79319222321 |
| PhonebookScenarios.IvanovPhoneMatches2322 | demo111/src/test/java/com/example/phonebook/service/PhonebookServiceTest.java:141-144 | "2322" occurs in +79319222322 |
| PhonebookScenarios.PetrovPhoneDoesNotMatch2322 | demo111/src/test/java/com/example/phonebook/service/PhonebookServiceTest.java:141-144 | "2322" does not occur in +79319222321 |
| PhonebookScenarios.NameQuerySelectsIvanov | demo111/src/test/java/com/example/phonebook/service/PhonebookServiceTest.java:116-125 | filtering the test's two contacts by "Иван" keeps only Иванов |
| PhonebookScenarios.PhoneQuerySelectsIvanov | demo111/src/test/java/com/example/phonebook/service/PhonebookServiceTest.java:135-144 | filtering the test's two contacts by "2322" keeps only Иванов |
| PhonebookScenarios.CompareFirstDiffers | demo111/src/main/java/com/example/phonebook/service/PhonebookService.java:129 | strings whose first characters differ after folding compare by those characters alone |
| PhonebookScenarios.SortTwo | demo111/src/main/java/com/example/phonebook/service/PhonebookService.java:126-130 | two contacts in the wrong order are swapped by the sort |
| PhonebookScenarios.FilterTwo | demo111/src/main/java/com/example/phonebook/service/PhonebookService.java:102-118 | of two contacts of which only the second matches, the filter keeps only the second |
| Contacts.Contact.PhonesAsString | demo111/src/main/java/com/example/phonebook/model/Contact.java:73-78 | `phonesAsString`; its value is given by PhonesAsStringJoins: "" with no phones, otherwise the "; " join of the renderings in list order |
| Contacts.Contact.ToString | demo111/src/main/java/com/example/phonebook/model/Contact.java:85-87 | `toString`; its layout is given by Contacts.ToStringLayout: the name or "null", " (", the phone string, ")" |
| Contacts.ReduceJoin | demo111/src/main/java/com/example/phonebook/model/Contact.java:76 | the left fold of `reduce((a, b) -> a + "; " + b)`; ReduceJoinIsJoined proves it equal to the reference join `Joined` |
| Contacts.Reduce | demo111/src/main/java/com/example/phonebook/model/Contact.java:76-77 | `reduce`'s `Optional`: empty for no phones, else the left fold, which `orElse("")` unwraps; its meaning is given by PhonesAsStringJoins |
| PhoneNumbers.PhoneNumber.ToString | demo111/src/main/java/com/example/phonebook/model/PhoneNumber.java:64-67 | `toString`; its layout is given by PhoneNumbers.ToStringLayout and ToStringInjective: constant name, ": ", number, and distinct values render differently |
| PhoneTypes.DisplayName | demo111/src/main/java/com/example/phonebook/model/PhoneType.java:12-21 | `getDisplayName` (PhoneType.java:38-40), the label each constant is declared with; DisplayNamesDistinct shows no two agree ignoring case, and FromDisplayRoundTrip that `fromDisplay` inverts it |
| PhoneTypes.ConstantName | demo111/src/main/java/com/example/phonebook/model/PhoneType.java:12-21 | the enum constant's `name()`, which `PhoneNumber.toString` prints; PhoneNumbers.ToStringLayout and ToStringInjective use it |
| PhonebookServices.NameMatches | demo111/src/main/java/com/example/phonebook/service/PhonebookService.java:104-106 | the name condition of the filter; its behaviour on the test data is given by IvanovNameMatches, PetrovNameDoesNotMatch and NameDoesNotMatch2322 |
| PhonebookServices.PhoneMatches | demo111/src/main/java/com/example/phonebook/service/PhonebookService.java:108-114 | the phone condition; DialableMatches shows that for numbers of digits and '+' it is plain containment |
| PhonebookServices.Matches | demo111/src/main/java/com/example/phonebook/service/PhonebookService.java:103-117 | the predicate the stream filter applies; Filter's ensures state which contacts it keeps |
| PhonebookServices.NameCompare | demo111/src/main/java/com/example/phonebook/service/PhonebookService.java:127-129 | the comparator `nullsLast(String::compareToIgnoreCase)` on names; NameCompareNullsLast, NameCompareAntisymmetric and NameCompareTransitive give its meaning |
| PhonebookServices.PhonebookService.Persisted | demo111/src/main/java/com/example/phonebook/service/PhonebookService.java:136-138 | the last snapshot storage received is the current list; Save, AddContact and RemoveContact establish it |
| JavaStrings.IsBlank | demo111/src/main/java/com/example/phonebook/service/PhonebookService.java:96 | `String.isBlank`: every character is white space under `Character.isWhitespace`; Search's ensures use it for the unfiltered case |
| JavaStrings.Contains | demo111/src/main/java/com/example/phonebook/service/PhonebookService.java:106 | `String.contains`: the query occurs at some offset; NotContainsMissingChar and SuffixContains give its meaning |
| JavaStrings.EqualsIgnoreCase | demo111/src/main/java/com/example/phonebook/model/PhoneType.java:55 | `String.equalsIgnoreCase`; EqualsIgnoreCaseIsFold shows it holds exactly when the case folds agree |
| JavaStrings.CompareToIgnoreCase | demo111/src/main/java/com/example/phonebook/service/PhonebookService.java:129 | `String.compareToIgnoreCase`; CompareToIgnoreCaseIsLex, CompareToIgnoreCaseZero, CompareToIgnoreCaseAntisymmetric and CompareToIgnoreCaseTransitive give its meaning |

## Left out

- Storage (`PhonebookStorage`): Java object serialisation to a file, directory creation, and the logged, swallowed exceptions. Saving is modelled as appending to the ghost log `saves`, and a failed save is not distinguished from a successful one.
- The load fallbacks: a missing file, content that is not a list, or an exception all yield an empty list. They are covered only by the constructor's `loaded` parameter, which may be any list, the empty one included.
- Logging through log4j: it only observes.
- The JavaFX controllers, the application wiring, and the build files.
- `hashCode` of `Contact` and `PhoneNumber`: it depends on Java's hashing internals and is never compared by the core.
- Case mapping covers ASCII and the Cyrillic block U+0400–U+045F. Other letters, accented Latin ones such as 'É' among them, are left unchanged. The model is therefore exact only for text whose letters are ASCII or basic Cyrillic (U+0400–U+045F). For example, Java lower-cases "ÉMILE" to "émile", so `search("é")` finds that contact, while the model does not.
- `search` lower-cases the query with the default locale and names with `Locale.ROOT`. The model uses one case mapping for both, so it is exact in every default locale whose case mapping agrees with ROOT. Turkish, Azeri and Lithuanian do not.
- Java strings are UTF-16. The model's strings are sequences of Unicode scalar values, which agree with UTF-16 units for all the characters case mapping covers.
- Nulls other than a null name: a null phone number string, a null `PhoneType`, a null `PhoneNumber` element, and a null contact passed to the service. The source does not guard against them either. `addPhone(null)` succeeds, and then `phonesAsString` and `search` throw on that element. A null number or type renders as "null" in `PhoneNumber.toString`.
- PhoneNumbers.PhoneNumber.SetNumber: is modelled on values, so aliasing of a `PhoneNumber` shared between two contacts, where a setter would change both, is not captured.
- PhoneNumbers.PhoneNumber.SetType: is modelled on values, for the same reason as `SetNumber`.
- The getters `getFullName`, `getPhones`, `getNumber` and `getType` are field reads. The mutable list `getPhones` hands out is not modelled: every change to the phones goes through `AddPhone` and `RemovePhone`.
- `getAllContacts` returns a read-only view of the list. The model returns the sequence value, which the caller cannot change either. Later changes to the service show through the Java view but not through the returned value.
- The scenarios start from an empty store. The temporary directory the tests create is not modelled.
