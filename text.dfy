/**
 * The parts of `java.lang.String` and `java.lang.Character` that the
 * phonebook relies on: case mapping, trimming, blank tests, substring
 * search, `equalsIgnoreCase` and `compareToIgnoreCase`.
 *
 * Case mapping follows Java's simple one-to-one mappings for the letters a
 * phonebook of Russian names and phone numbers uses: ASCII Latin A-Z and the
 * basic Cyrillic block U+0400..U+045F. Every other character maps to itself.
 */
module JavaStrings {

  /** `Character.toLowerCase` restricted to ASCII and basic Cyrillic. */
  function ToLowerChar(c: char): (lower: char)
  {
    if 'A' <= c <= 'Z' then (c as int + 32) as char
    else if '\U{0410}' <= c <= '\U{042F}' then (c as int + 32) as char
    else if '\U{0400}' <= c <= '\U{040F}' then (c as int + 80) as char
    else c
  }

  /** `Character.toUpperCase` restricted to ASCII and basic Cyrillic. */
  function ToUpperChar(c: char): (upper: char)
  {
    if 'a' <= c <= 'z' then (c as int - 32) as char
    else if '\U{0430}' <= c <= '\U{044F}' then (c as int - 32) as char
    else if '\U{0450}' <= c <= '\U{045F}' then (c as int - 80) as char
    else c
  }

  /** The key both ignore-case comparisons of `String` reduce a character to. */
  function FoldChar(c: char): (folded: char)
  {
    ToLowerChar(ToUpperChar(c))
  }

  /** `String.toLowerCase`: every character lower-cased, length kept. */
  function ToLower(s: string): (r: string)
    ensures |r| == |s|
  {
    seq(|s|, i requires 0 <= i < |s| => ToLowerChar(s[i]))
  }

  lemma ToLowerAt(s: string, i: nat)
    requires i < |s|
    ensures ToLower(s)[i] == ToLowerChar(s[i])
  {
  }

  lemma ToLowerAppend(a: string, b: string)
    ensures ToLower(a + b) == ToLower(a) + ToLower(b)
  {
  }

  /** A character that nothing in `s` lower-cases to does not occur in `ToLower(s)`. */
  lemma NotInToLower(s: string, c: char)
    requires forall x :: ToLowerChar(x) == c ==> x !in s
    ensures c !in ToLower(s)
  {
    forall i | 0 <= i < |s| ensures ToLower(s)[i] != c {
      ToLowerAt(s, i);
      assert s[i] in s;
    }
  }

  /** `String.replace(" ", "")`: every U+0020 dropped, all else kept in order. */
  function RemoveSpaces(s: string): (r: string)
    ensures ' ' !in r
    ensures forall c :: c in r <==> c in s && c != ' '
  {
    if s == [] then []
    else if s[0] == ' ' then RemoveSpaces(s[1..])
    else [s[0]] + RemoveSpaces(s[1..])
  }

  /** Space removal works piece by piece, so the other characters keep their order. */
  lemma {:induction false} RemoveSpacesAppend(a: string, b: string)
    ensures RemoveSpaces(a + b) == RemoveSpaces(a) + RemoveSpaces(b)
  {
    if a == [] {
      assert a + b == b;
    } else {
      var ab := a + b;
      assert ab[0] == a[0] && ab[1..] == a[1..] + b;
      RemoveSpacesAppend(a[1..], b);
      if a[0] == ' ' {
        assert RemoveSpaces(ab) == RemoveSpaces(a[1..] + b);
      } else {
        assert RemoveSpaces(ab) == [a[0]] + RemoveSpaces(a[1..] + b);
      }
    }
  }

  /** Space removal drops every U+0020 and keeps every other character as often as it occurs. */
  lemma {:induction false} RemoveSpacesMultiset(s: string)
    ensures multiset(RemoveSpaces(s)) == multiset(s)[' ' := 0]
  {
    if s != [] {
      var t := s[1..];
      assert s == [s[0]] + t;
      assert multiset(s) == multiset{s[0]} + multiset(t);
      RemoveSpacesMultiset(t);
    }
  }

  /** A text without spaces is left as it is. */
  lemma {:induction false} RemoveSpacesNone(s: string)
    requires ' ' !in s
    ensures RemoveSpaces(s) == s
  {
    if s != [] {
      assert s == [s[0]] + s[1..];
      RemoveSpacesNone(s[1..]);
    }
  }

  /** `String.contains`: `sub` occurs in `s` at some offset (the empty string occurs everywhere). */
  predicate Contains(s: string, sub: string)
  {
    exists i :: 0 <= i <= |s| && sub <= s[i..]
  }

  /** A text that lacks one of the characters of `sub` does not contain `sub`. */
  lemma NotContainsMissingChar(s: string, sub: string, k: nat)
    requires k < |sub| && sub[k] !in s
    ensures !Contains(s, sub)
  {
    forall i | 0 <= i <= |s| ensures !(sub <= s[i..]) {
      if i + k < |s| {
        assert s[i + k] in s;
      }
    }
  }

  /** `Character.isWhitespace`. */
  predicate IsWhitespace(c: char)
  {
    || '\t' <= c <= '\r'
    || '\U{001C}' <= c <= '\U{001F}'
    || c == ' '
    || c == '\U{1680}'
    || '\U{2000}' <= c <= '\U{2006}'
    || '\U{2008}' <= c <= '\U{200A}'
    || c == '\U{2028}' || c == '\U{2029}'
    || c == '\U{205F}' || c == '\U{3000}'
  }

  /** `String.isBlank`: empty or white space only. */
  predicate IsBlank(s: string)
  {
    forall i :: 0 <= i < |s| ==> IsWhitespace(s[i])
  }

  /** Leading characters at or below U+0020 removed. */
  function TrimStart(s: string): (r: string)
    ensures |r| <= |s| && r == s[|s| - |r|..]
    ensures r == [] || ' ' < r[0]
    ensures forall k :: 0 <= k < |s| - |r| ==> s[k] <= ' '
  {
    if s != [] && s[0] <= ' ' then TrimStart(s[1..]) else s
  }

  /** Trailing characters at or below U+0020 removed. */
  function TrimEnd(s: string): (r: string)
    ensures |r| <= |s| && r == s[..|r|]
    ensures r == [] || ' ' < r[|r| - 1]
    ensures forall k :: |r| <= k < |s| ==> s[k] <= ' '
  {
    if s != [] && s[|s| - 1] <= ' ' then TrimEnd(s[..|s| - 1]) else s
  }

  /**
   * `String.trim`: the longest slice of `s` that neither starts nor ends
   * with a character at or below U+0020.
   */
  function Trim(s: string): (r: string)
    ensures r == [] || (' ' < r[0] && ' ' < r[|r| - 1])
    ensures exists i :: 0 <= i <= |s| - |r| && r <= s[i..] && TrimmedAround(s, i, |r|)
  {
    var t := TrimStart(s);
    var r := TrimEnd(t);
    var i := |s| - |t|;
    assert r <= s[i..];
    assert TrimmedAround(s, i, |r|);
    r
  }

  /** Everything in `s` outside the slice of length `n` at `i` is at or below U+0020. */
  predicate TrimmedAround(s: string, i: nat, n: nat)
    requires i + n <= |s|
  {
    (forall k :: 0 <= k < i ==> s[k] <= ' ') && (forall k :: i + n <= k < |s| ==> s[k] <= ' ')
  }

  lemma {:induction false} TrimStartPadded(pad: string, s: string)
    requires forall k :: 0 <= k < |pad| ==> pad[k] <= ' '
    requires s == [] || ' ' < s[0]
    ensures TrimStart(pad + s) == s
  {
    if pad != [] {
      assert (pad + s)[1..] == pad[1..] + s;
      TrimStartPadded(pad[1..], s);
    }
  }

  lemma {:induction false} TrimEndPadded(s: string, pad: string)
    requires forall k :: 0 <= k < |pad| ==> pad[k] <= ' '
    requires s == [] || ' ' < s[|s| - 1]
    ensures TrimEnd(s + pad) == s
  {
    if pad != [] {
      var p := pad[..|pad| - 1];
      assert (s + pad)[..|s + pad| - 1] == s + p;
      TrimEndPadded(s, p);
    } else {
      assert s + pad == s;
    }
  }

  /** `trim` strips any padding of control characters and spaces from an untrimmed text, and only that. */
  lemma TrimPadded(before: string, s: string, after: string)
    requires forall k :: 0 <= k < |before| ==> before[k] <= ' '
    requires forall k :: 0 <= k < |after| ==> after[k] <= ' '
    requires s == [] || (' ' < s[0] && ' ' < s[|s| - 1])
    ensures Trim(before + s + after) == s
  {
    if s == [] {
      assert before + s + after == before + after;
      TrimStartPadded(before + after, []);
      assert before + after + [] == before + after;
      assert TrimStart(before + after) == [];
    } else {
      assert before + s + after == before + (s + after);
      TrimStartPadded(before, s + after);
      TrimEndPadded(s, after);
    }
  }

  /** One step of `String.regionMatches(true, ...)`: equal, equal upper case, or equal lower case of the upper case. */
  predicate CharEqualsIgnoreCase(x: char, y: char)
  {
    x == y || ToUpperChar(x) == ToUpperChar(y) || FoldChar(x) == FoldChar(y)
  }

  /** `String.equalsIgnoreCase` for two non-null strings. */
  predicate EqualsIgnoreCase(a: string, b: string)
  {
    |a| == |b| && forall i :: 0 <= i < |a| ==> CharEqualsIgnoreCase(a[i], b[i])
  }

  /**
   * `String.compareToIgnoreCase` (`String.CASE_INSENSITIVE_ORDER`): at the
   * first position whose characters differ after upper- and then
   * lower-casing, the difference of the folded characters; otherwise the
   * difference of the lengths.
   */
  function CompareToIgnoreCase(a: string, b: string): (cmp: int)
  {
    if a == [] || b == [] then |a| - |b|
    else if a[0] == b[0] then CompareToIgnoreCase(a[1..], b[1..])
    else
      var u1, u2 := ToUpperChar(a[0]), ToUpperChar(b[0]);
      if u1 == u2 then CompareToIgnoreCase(a[1..], b[1..])
      else
        var l1, l2 := ToLowerChar(u1), ToLowerChar(u2);
        if l1 == l2 then CompareToIgnoreCase(a[1..], b[1..])
        else l1 as int - l2 as int
  }

  /** The folded code points of a string. */
  function Fold(s: string): (r: seq<int>)
    ensures |r| == |s|
  {
    if s == [] then [] else [FoldChar(s[0]) as int] + Fold(s[1..])
  }

  /** Lexicographic comparison of integer sequences, a proper prefix first. */
  function LexCompare(a: seq<int>, b: seq<int>): (cmp: int)
  {
    if a == [] || b == [] then |a| - |b|
    else if a[0] != b[0] then a[0] - b[0]
    else LexCompare(a[1..], b[1..])
  }

  lemma {:induction false} LexCompareAntisymmetric(a: seq<int>, b: seq<int>)
    ensures LexCompare(a, b) == -LexCompare(b, a)
  {
    if a != [] && b != [] && a[0] == b[0] {
      LexCompareAntisymmetric(a[1..], b[1..]);
    }
  }

  lemma {:induction false} LexCompareZero(a: seq<int>, b: seq<int>)
    ensures LexCompare(a, b) == 0 <==> a == b
  {
    if a != [] && b != [] && a[0] == b[0] {
      LexCompareZero(a[1..], b[1..]);
      assert a == [a[0]] + a[1..] && b == [b[0]] + b[1..];
    }
  }

  lemma {:induction false} LexCompareTransitive(a: seq<int>, b: seq<int>, c: seq<int>)
    requires LexCompare(a, b) <= 0 && LexCompare(b, c) <= 0
    ensures LexCompare(a, c) <= 0
  {
    if a != [] && b != [] && c != [] && a[0] == b[0] && b[0] == c[0] {
      LexCompareTransitive(a[1..], b[1..], c[1..]);
    }
  }

  /** `compareToIgnoreCase` is the lexicographic order on the folded code points. */
  lemma {:induction false} CompareToIgnoreCaseIsLex(a: string, b: string)
    ensures CompareToIgnoreCase(a, b) == LexCompare(Fold(a), Fold(b))
  {
    if a != [] && b != [] {
      CompareToIgnoreCaseIsLex(a[1..], b[1..]);
      assert Fold(a)[1..] == Fold(a[1..]);
      assert Fold(b)[1..] == Fold(b[1..]);
    }
  }

  lemma {:induction false} FoldAt(s: string, i: nat)
    requires i < |s|
    ensures Fold(s)[i] == FoldChar(s[i]) as int
  {
    if i > 0 {
      FoldAt(s[1..], i - 1);
    }
  }

  /** Two strings are equal ignoring case exactly when their folds agree. */
  lemma EqualsIgnoreCaseIsFold(a: string, b: string)
    ensures EqualsIgnoreCase(a, b) <==> Fold(a) == Fold(b)
  {
    if |a| == |b| {
      forall i | 0 <= i < |a| ensures Fold(a)[i] == FoldChar(a[i]) as int && Fold(b)[i] == FoldChar(b[i]) as int {
        FoldAt(a, i);
        FoldAt(b, i);
      }
      if Fold(a) == Fold(b) {
        forall i | 0 <= i < |a| ensures CharEqualsIgnoreCase(a[i], b[i]) {
          assert Fold(a)[i] == Fold(b)[i];
        }
      }
    }
  }

  /** As `String` documents: `compareToIgnoreCase` is zero exactly when `equalsIgnoreCase` holds. */
  lemma CompareToIgnoreCaseZero(a: string, b: string)
    ensures CompareToIgnoreCase(a, b) == 0 <==> EqualsIgnoreCase(a, b)
  {
    CompareToIgnoreCaseIsLex(a, b);
    LexCompareZero(Fold(a), Fold(b));
    EqualsIgnoreCaseIsFold(a, b);
  }

  lemma CompareToIgnoreCaseAntisymmetric(a: string, b: string)
    ensures CompareToIgnoreCase(a, b) == -CompareToIgnoreCase(b, a)
  {
    CompareToIgnoreCaseIsLex(a, b);
    CompareToIgnoreCaseIsLex(b, a);
    LexCompareAntisymmetric(Fold(a), Fold(b));
  }

  lemma CompareToIgnoreCaseTransitive(a: string, b: string, c: string)
    requires CompareToIgnoreCase(a, b) <= 0 && CompareToIgnoreCase(b, c) <= 0
    ensures CompareToIgnoreCase(a, c) <= 0
  {
    CompareToIgnoreCaseIsLex(a, b);
    CompareToIgnoreCaseIsLex(b, c);
    CompareToIgnoreCaseIsLex(a, c);
    LexCompareTransitive(Fold(a), Fold(b), Fold(c));
  }
}
