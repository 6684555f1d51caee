/**
 * `Contact`: a mutable entry holding a possibly-null full name and an
 * ordered list of phone numbers. Its identity for lookups is the name alone.
 */
module Contacts {
  import opened Options
  import opened PhoneNumbers

  /** What storage serialises for one contact: its name and its phones, by value. */
  datatype ContactRecord = ContactRecord(fullName: Option<string>, phones: seq<PhoneNumber>)

  /** The position of the first element equal to `x`, or `|s|` when there is none. */
  function FirstIndex<T(==)>(s: seq<T>, x: T): (i: nat)
    ensures i <= |s|
    ensures i < |s| ==> s[i] == x
    ensures forall j :: 0 <= j < i ==> s[j] != x
  {
    if s == [] then 0 else if s[0] == x then 0 else 1 + FirstIndex(s[1..], x)
  }

  /** `List.remove(Object)`: the first element equal to `x` dropped, nothing else changed. */
  function RemoveFirst<T(==)>(s: seq<T>, x: T): (r: seq<T>)
    ensures x !in s ==> r == s
    ensures x in s ==> |r| == |s| - 1
  {
    if s == [] then s
    else if s[0] == x then
      assert s == [x] + s[1..];
      s[1..]
    else
      assert s == [s[0]] + s[1..];
      [s[0]] + RemoveFirst(s[1..], x)
  }

  /** What `remove` leaves: everything before the first occurrence of `x`, then everything after it. */
  lemma {:induction false} RemoveFirstAt<T>(s: seq<T>, x: T)
    requires x in s
    ensures FirstIndex(s, x) < |s|
    ensures RemoveFirst(s, x) == s[..FirstIndex(s, x)] + s[FirstIndex(s, x) + 1..]
  {
    if s[0] != x {
      var t := s[1..];
      assert s == [s[0]] + t;
      assert x in t;
      RemoveFirstAt(t, x);
      var i := FirstIndex(t, x);
      assert FirstIndex(s, x) == i + 1;
      assert RemoveFirst(s, x) == [s[0]] + (t[..i] + t[i + 1..]);
      assert [s[0]] + t[..i] == s[..i + 1];
      assert t[i + 1..] == s[i + 2..];
    }
  }

  /** `remove` takes away exactly one copy of `x` when there is one, and nothing else. */
  lemma {:induction false} RemoveFirstMultiset<T>(s: seq<T>, x: T)
    ensures multiset(RemoveFirst(s, x)) == multiset(s) - multiset{x}
  {
    if s != [] {
      var t := s[1..];
      assert s == [s[0]] + t;
      assert multiset(s) == multiset{s[0]} + multiset(t);
      if s[0] != x {
        RemoveFirstMultiset(t, x);
        assert multiset(RemoveFirst(s, x)) == multiset{s[0]} + multiset(RemoveFirst(t, x));
      }
    }
  }

  /** Removing an element nowhere in `s` from `s + t` leaves `s` untouched. */
  lemma {:induction false} RemoveFirstPastPrefix<T>(s: seq<T>, t: seq<T>, x: T)
    requires x !in s
    ensures RemoveFirst(s + t, x) == s + RemoveFirst(t, x)
  {
    if s == [] {
      assert s + t == t;
    } else {
      var u := s + t;
      assert u[0] == s[0] && s[0] != x;
      assert u[1..] == s[1..] + t;
      assert RemoveFirst(u, x) == [s[0]] + RemoveFirst(u[1..], x);
      RemoveFirstPastPrefix(s[1..], t, x);
      assert [s[0]] + (s[1..] + RemoveFirst(t, x)) == s + RemoveFirst(t, x);
    }
  }

  /** `removePhone` undoes an `addPhone` of a number the contact did not have. */
  lemma RemoveFirstUndoesAppend<T>(s: seq<T>, x: T)
    ensures x !in s ==> RemoveFirst(s + [x], x) == s
  {
    if x !in s {
      RemoveFirstPastPrefix(s, [x], x);
    }
  }

  /** Java string concatenation of a possibly-null `String`: `null` prints as "null". */
  function NameText(name: Option<string>): (text: string)
  {
    match name
    case None => "null"
    case Some(s) => s
  }

  /** The `toString` of each phone, in list order. */
  function Render(phones: seq<PhoneNumber>): (r: seq<string>)
    ensures |r| == |phones|
    ensures forall i :: 0 <= i < |phones| ==> r[i] == phones[i].ToString()
  {
    seq(|phones|, i requires 0 <= i < |phones| => phones[i].ToString())
  }

  /** The left fold of `reduce((a, b) -> a + "; " + b)` over a non-empty list. */
  function ReduceJoin(xs: seq<string>): (joined: string)
    requires xs != []
  {
    if |xs| == 1 then xs[0] else ReduceJoin(xs[..|xs| - 1]) + "; " + xs[|xs| - 1]
  }

  /** `stream.reduce(...)`: `Optional.empty()` for no elements. */
  function Reduce(xs: seq<string>): (folded: Option<string>)
  {
    if xs == [] then None else Some(ReduceJoin(xs))
  }

  /** Reference definition: the first element, then "; " and the join of the rest. */
  function Joined(xs: seq<string>): (joined: string)
    requires xs != []
  {
    if |xs| == 1 then xs[0] else xs[0] + "; " + Joined(xs[1..])
  }

  lemma {:induction false} JoinedSnoc(xs: seq<string>, y: string)
    requires xs != []
    ensures Joined(xs + [y]) == Joined(xs) + "; " + y
  {
    if |xs| == 1 {
      assert (xs + [y])[1..] == [y];
    } else {
      assert (xs + [y])[1..] == xs[1..] + [y];
      JoinedSnoc(xs[1..], y);
    }
  }

  /** The left fold `reduce` computes is the separator join read from the left. */
  lemma {:induction false} ReduceJoinIsJoined(xs: seq<string>)
    requires xs != []
    ensures ReduceJoin(xs) == Joined(xs)
  {
    if |xs| > 1 {
      var init := xs[..|xs| - 1];
      ReduceJoinIsJoined(init);
      JoinedSnoc(init, xs[|xs| - 1]);
      assert init + [xs[|xs| - 1]] == xs;
    }
  }

  class Contact {
    var fullName: Option<string>
    var phones: seq<PhoneNumber>

    /** A new contact: the given name, no phones. */
    constructor (fullName: Option<string>)
      ensures this.fullName == fullName && phones == []
    {
      this.fullName := fullName;
      phones := [];
    }

    /** `setFullName`: only the name changes; with it, which contacts this one equals. */
    method SetFullName(fullName: Option<string>)
      modifies this
      ensures this.fullName == fullName && phones == old(phones)
    {
      this.fullName := fullName;
    }

    /** `addPhone`: the number is appended; the name and the earlier phones stay. */
    method AddPhone(p: PhoneNumber)
      modifies this
      ensures phones == old(phones) + [p] && fullName == old(fullName)
      ensures PhonesAsString() == if old(phones) == [] then p.ToString() else old(PhonesAsString()) + "; " + p.ToString()
    {
      phones := phones + [p];
      assert Render(phones)[..|phones| - 1] == Render(old(phones));
    }

    /** `removePhone`: the first phone equal in number and type is dropped, if any; the name stays. */
    method RemovePhone(p: PhoneNumber)
      modifies this
      ensures phones == RemoveFirst(old(phones), p) && fullName == old(fullName)
    {
      phones := RemoveFirst(phones, p);
    }

    /** `equals`: two contacts are equal exactly when their names are (null equal to null); phones are ignored. */
    predicate Equals(other: Contact)
      reads this, other
      ensures Equals(other) <==> fullName == other.fullName
    {
      this == other || fullName == other.fullName
    }

    /** `phonesAsString`: the phones' renderings joined by "; ", or "" for none. */
    function PhonesAsString(): (text: string)
      reads this
    {
      Reduce(Render(phones)).GetOr("")
    }

    /** `toString`: the name (or "null"), then the phone string in parentheses. */
    function ToString(): (text: string)
      reads this
    {
      NameText(fullName) + " (" + PhonesAsString() + ")"
    }

    /** The value storage writes for this contact. */
    function Record(): (r: ContactRecord)
      reads this
      ensures r.fullName == fullName && r.phones == phones
    {
      ContactRecord(fullName, phones)
    }
  }

  /** `phonesAsString` is "" without phones, and otherwise every phone's rendering in order, separated by "; ". */
  lemma PhonesAsStringJoins(c: Contact)
    ensures c.phones == [] ==> c.PhonesAsString() == ""
    ensures c.phones != [] ==> c.PhonesAsString() == Joined(Render(c.phones))
    ensures |c.phones| == 1 ==> c.PhonesAsString() == c.phones[0].ToString()
  {
    if c.phones != [] {
      ReduceJoinIsJoined(Render(c.phones));
    }
  }

  /** The layout of `toString`: the name text, " (", the phone string, and a closing parenthesis. */
  lemma ToStringLayout(c: Contact)
    ensures NameText(c.fullName) + " (" <= c.ToString()
    ensures c.ToString()[|c.ToString()| - 1] == ')'
    ensures c.ToString()[|NameText(c.fullName)| + 2..|c.ToString()| - 1] == c.PhonesAsString()
    ensures |c.ToString()| == |NameText(c.fullName)| + |c.PhonesAsString()| + 3
    ensures c.fullName.None? ==> "null (" <= c.ToString()
    ensures c.phones == [] ==> c.ToString() == NameText(c.fullName) + " ()"
  {
    PhonesAsStringJoins(c);
  }
}
