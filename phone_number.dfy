/**
 * `PhoneNumber`: one free-form number string and its category. The model
 * treats it as a value (copy-by-value); each setter yields the updated value.
 */
module PhoneNumbers {
  import opened PhoneTypes

  datatype PhoneNumber = PhoneNumber(number: string, phoneType: PhoneType) {

    /** `setNumber`: a new number, the type kept. */
    function SetNumber(n: string): (r: PhoneNumber)
      ensures r.number == n && r.phoneType == phoneType
    {
      this.(number := n)
    }

    /** `setType`: a new type, the number kept. */
    function SetType(t: PhoneType): (r: PhoneNumber)
      ensures r.phoneType == t && r.number == number
    {
      this.(phoneType := t)
    }

    /** `equals`: both the number strings and the types agree. */
    predicate Equals(other: PhoneNumber)
      ensures Equals(other) <==> this == other
    {
      number == other.number && phoneType == other.phoneType
    }

    /** `toString`: the constant name of the type (not its label), ": ", then the number. */
    function ToString(): (text: string)
    {
      ConstantName(phoneType) + ": " + number
    }
  }

  /** `equals` is reflexive (the identity short-circuit) and symmetric. */
  lemma EqualsReflexiveSymmetric(p: PhoneNumber, q: PhoneNumber)
    ensures p.Equals(p)
    ensures p.Equals(q) <==> q.Equals(p)
  {
  }

  /** Setting a field to the value it already holds changes nothing, and the last write wins. */
  lemma SettersOverwrite(p: PhoneNumber, n: string, m: string, t: PhoneType, u: PhoneType)
    ensures p.SetNumber(p.number) == p && p.SetType(p.phoneType) == p
    ensures p.SetNumber(n).SetNumber(m) == p.SetNumber(m)
    ensures p.SetType(t).SetType(u) == p.SetType(u)
    ensures p.SetNumber(n).SetType(t) == p.SetType(t).SetNumber(n)
    ensures p.SetNumber(n).Equals(p) <==> n == p.number
  {
  }

  /** The rendering starts with the constant name: its first letter tells the type. */
  lemma {:induction false} ToStringLayout(p: PhoneNumber)
    ensures ConstantName(p.phoneType) + ": " <= p.ToString()
    ensures p.ToString()[|ConstantName(p.phoneType)| + 2..] == p.number
    ensures !(DisplayName(p.phoneType) <= p.ToString())
  {
    var name := ConstantName(p.phoneType);
    assert p.ToString() == (name + ": ") + p.number;
    assert p.ToString()[0] == name[0];
    assert DisplayName(p.phoneType)[0] != name[0];
  }

  /** Distinct phone numbers render differently, so `toString` loses nothing. */
  lemma ToStringInjective(p: PhoneNumber, q: PhoneNumber)
    requires p.ToString() == q.ToString()
    ensures p == q
  {
    ToStringLayout(p);
    ToStringLayout(q);
    assert p.ToString()[0] == ConstantName(p.phoneType)[0];
    assert q.ToString()[0] == ConstantName(q.phoneType)[0];
  }
}
