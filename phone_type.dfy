/** `PhoneType`: the closed set of phone-number categories and their display labels. */
module PhoneTypes {
  import opened Options
  import opened JavaStrings

  datatype PhoneType = Mobile | Home | Work | Fax

  /** `values()`: the variants in declaration order. */
  const Values: seq<PhoneType> := [Mobile, Home, Work, Fax]

  /** There are exactly four variants, each listed once. */
  lemma ValuesComplete(t: PhoneType)
    ensures |Values| == 4
    ensures t in Values
    ensures forall i, j :: 0 <= i < j < |Values| ==> Values[i] != Values[j]
  {
  }

  /** `getDisplayName`: the label shown in the user interface. */
  function DisplayName(t: PhoneType): (display: string)
  {
    match t
    case Mobile => "Мобильный"
    case Home => "Домашний"
    case Work => "Рабочий"
    case Fax => "Факс"
  }

  /** `name()` (and so `toString()`) of the enum constant. */
  function ConstantName(t: PhoneType): (name: string)
  {
    match t
    case Mobile => "MOBILE"
    case Home => "HOME"
    case Work => "WORK"
    case Fax => "FAX"
  }

  /** No two labels are equal ignoring case (their lengths already differ). */
  lemma DisplayNamesDistinct(t: PhoneType, u: PhoneType)
    requires t != u
    ensures !EqualsIgnoreCase(DisplayName(t), DisplayName(u))
    ensures |DisplayName(t)| != |DisplayName(u)|
  {
  }

  /**
   * The position in `Values` of the first variant whose label equals `text`
   * ignoring case, or `|Values|` when there is none: the loop of `fromDisplay`.
   */
  function FirstLabelIndex(text: string, from: nat): (i: nat)
    requires from <= |Values|
    ensures from <= i <= |Values|
    ensures i < |Values| ==> EqualsIgnoreCase(DisplayName(Values[i]), text)
    ensures forall j :: from <= j < i ==> !EqualsIgnoreCase(DisplayName(Values[j]), text)
    decreases |Values| - from
  {
    if from == |Values| then from
    else if EqualsIgnoreCase(DisplayName(Values[from]), text) then from
    else FirstLabelIndex(text, from + 1)
  }

  /**
   * `fromDisplay`: `null` gives MOBILE; otherwise the text is trimmed and the
   * first variant whose label matches it ignoring case is returned, MOBILE
   * when none does.
   */
  function FromDisplay(text: Option<string>): (t: PhoneType)
    ensures text.None? ==> t == Mobile
    ensures text.Some? ==> t == Mobile || EqualsIgnoreCase(DisplayName(t), Trim(text.value))
  {
    match text
    case None => Mobile
    case Some(s) =>
      var i := FirstLabelIndex(Trim(s), 0);
      if i < |Values| then Values[i] else Mobile
  }

  /** A text that matches a label after trimming yields that label's variant. */
  lemma FromDisplayMatch(s: string, t: PhoneType)
    requires EqualsIgnoreCase(DisplayName(t), Trim(s))
    ensures FromDisplay(Some(s)) == t
  {
    var i := FirstLabelIndex(Trim(s), 0);
    ValuesComplete(t);
    if i < |Values| && Values[i] != t {
      DisplayNamesDistinct(Values[i], t);
    }
  }

  /** Text that matches no label after trimming falls back to MOBILE. */
  lemma FromDisplayUnrecognised(s: string)
    requires forall t :: !EqualsIgnoreCase(DisplayName(t), Trim(s))
    ensures FromDisplay(Some(s)) == Mobile
  {
  }

  /** `fromDisplay(t.getDisplayName()) == t`, also with control or space padding around the label. */
  lemma FromDisplayRoundTrip(t: PhoneType, before: string, after: string)
    requires forall k :: 0 <= k < |before| ==> before[k] <= ' '
    requires forall k :: 0 <= k < |after| ==> after[k] <= ' '
    ensures FromDisplay(Some(before + DisplayName(t) + after)) == t
  {
    var lbl := DisplayName(t);
    TrimPadded(before, lbl, after);
    assert EqualsIgnoreCase(lbl, lbl);
    FromDisplayMatch(before + lbl + after, t);
  }
}
