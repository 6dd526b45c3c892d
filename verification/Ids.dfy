/** The order of the ID columns: numeric where both sides parse as integers,
    lexicographic otherwise. */
module Ids {
  import opened Wrappers
  import opened Text
  import opened Sorting

  predicate Numeral(id: string) {
    Atoi(Trim(id)).Some?
  }

  function Value(id: string): int
    requires Numeral(id)
  {
    Atoi(Trim(id)).value
  }

  function CmpId(a: string, b: string): int {
    if Numeral(a) && Numeral(b) then
      if Value(a) < Value(b) then -1 else if Value(a) > Value(b) then 1 else 0
    else StrCmp(a, b)
  }

  predicate IdLess(a: string, b: string) {
    CmpId(a, b) < 0
  }

  /** Swapping the operands flips the sign, for every pair of IDs. */
  lemma CmpIdSign(a: string, b: string)
    ensures CmpId(a, b) == -CmpId(b, a)
    ensures a == b ==> CmpId(a, b) == 0
  {
    StrCmpSign(a, b);
  }

  /** A non-numeral `c` lies, as text, between two numerals whose text order contradicts
      their numeric order. */
  ghost predicate Straddled(a: string, b: string, c: string) {
    && Numeral(a) && Numeral(b) && !Numeral(c)
    && Value(a) <= Value(b) && StrCmp(b, c) < 0 && StrCmp(c, a) < 0
  }

  ghost predicate Comparable(ids: set<string>) {
    !exists a, b, c :: a in ids && b in ids && c in ids && Straddled(a, b, c)
  }

  /** Two different IDs of the same numeric value, such as "1" and "01". */
  ghost predicate Twins(a: string, b: string) {
    a != b && Numeral(a) && Numeral(b) && Value(a) == Value(b)
  }

  ghost predicate NoTwins(ids: set<string>) {
    !exists a, b :: a in ids && b in ids && Twins(a, b)
  }

  ghost predicate Composes(a: string, b: string, c: string) {
    CmpId(a, b) <= 0 && CmpId(b, c) <= 0 ==> CmpId(a, c) <= 0
  }

  lemma ComposesUnlessStraddled(a: string, b: string, c: string)
    ensures Composes(a, b, c)
         || Straddled(a, b, c) || Straddled(b, c, a) || Straddled(c, a, b)
  {
    StrCmpSign(a, b);
    StrCmpSign(b, c);
    StrCmpSign(a, c);
    if StrCmp(a, b) <= 0 && StrCmp(b, c) <= 0 {
      StrCmpTransitive(a, b, c);
    }
  }

  /** The comparison is transitive on a set of IDs exactly when no ID of the set is
      straddled by two others. */
  lemma CmpIdTransitiveIff(ids: set<string>)
    ensures Comparable(ids)
       <==> forall a, b, c :: a in ids && b in ids && c in ids ==> Composes(a, b, c)
  {
    if Comparable(ids) {
      forall a, b, c | a in ids && b in ids && c in ids
        ensures Composes(a, b, c)
      {
        ComposesUnlessStraddled(a, b, c);
      }
    } else {
      var a, b, c :| a in ids && b in ids && c in ids && Straddled(a, b, c);
      StrCmpSign(a, c);
      assert !Composes(a, b, c);
    }
  }

  lemma ComparableComposes(ids: set<string>, a: string, b: string, c: string)
    requires Comparable(ids) && a in ids && b in ids && c in ids
    ensures Composes(a, b, c)
  {
    ComposesUnlessStraddled(a, b, c);
  }

  lemma CmpIdSplits(ids: set<string>, a: string, b: string, c: string)
    requires Comparable(ids) && a in ids && b in ids && c in ids
    ensures CmpId(a, c) < 0 ==> CmpId(a, b) < 0 || CmpId(b, c) < 0
    ensures CmpId(a, c) == 0 ==> CmpId(a, b) < 0 || CmpId(b, c) < 0 || (CmpId(a, b) == 0 && CmpId(b, c) == 0)
  {
    ComparableComposes(ids, c, b, a);
    ComparableComposes(ids, a, c, b);
    ComparableComposes(ids, b, a, c);
    CmpIdSign(a, b);
    CmpIdSign(b, c);
    CmpIdSign(a, c);
  }

  lemma IdLessAsymmetric()
    ensures Asymmetric(IdLess)
  {
    forall a, b | IdLess(a, b)
      ensures !IdLess(b, a)
    {
      CmpIdSign(a, b);
    }
  }

  /** A list of comparable IDs has one stable arrangement. */
  lemma IdsWeak(ids: set<string>, s: seq<string>)
    requires Comparable(ids) && forall x :: x in s ==> x in ids
    ensures Asymmetric(IdLess) && WeakOrderOn(IdLess, s)
  {
    IdLessAsymmetric();
    forall a, b, c | a in s && b in s && c in s
      ensures Splits(IdLess, a, b, c)
    {
      CmpIdSplits(ids, a, b, c);
    }
  }

  lemma EmptyIsNoNumeral()
    ensures !Numeral("") && forall s :: StrCmp(s, "") >= 0
  {
    assert Trim("") == "";
  }

  /** The empty ID disturbs no order: nothing stands before it and it is no numeral. */
  lemma EmptyIdHarmless(ids: set<string>)
    ensures Comparable(ids) ==> Comparable(ids + {""})
    ensures NoTwins(ids) ==> NoTwins(ids + {""})
  {
    EmptyIsNoNumeral();
  }

  /** Distinct IDs compare as different exactly when none are twins. */
  lemma CmpIdAntisymmetricIff(ids: set<string>)
    ensures NoTwins(ids)
       <==> forall a, b :: a in ids && b in ids && a != b ==> CmpId(a, b) != 0
  {
    forall a, b | a in ids && b in ids && a != b
      ensures CmpId(a, b) == 0 <==> Twins(a, b)
    {
      StrCmpSign(a, b);
    }
    if !NoTwins(ids) {
      var a, b :| a in ids && b in ids && Twins(a, b);
      assert CmpId(a, b) == 0;
    }
  }

  lemma StraddleCycles(a: string, b: string, c: string)
    requires Straddled(a, b, c)
    ensures a != b && b != c && a != c
    ensures CmpId(b, a) >= 0 && CmpId(c, b) >= 0 && CmpId(a, c) >= 0
  {
    StrCmpSign(a, b);
    StrCmpSign(b, c);
    StrCmpSign(c, a);
  }

  /** Mixed IDs can chase each other: "9" before "10", "10" before "1a", "1a" before "9". */
  lemma MixedIdsCycle()
    ensures CmpId("9", "10") < 0 && CmpId("10", "1a") < 0 && CmpId("1a", "9") < 0
    ensures !Comparable({"9", "10", "1a"})
  {
    assert Atoi("9") == Some(9);
    assert Decimal("1") == 1;
    assert Decimal("10") == 10;
    assert Atoi("10") == Some(10);
    assert !AllDigits("1a") by { assert !IsDigit("1a"[1]); }
    assert StrCmp("10", "1a") == StrCmp("0", "a");
    assert Straddled("9", "10", "1a");
  }

  // ---- the same in plain terms ----

  /** Two numbers compare as numbers, white space around them aside; anything else as text. */
  lemma CmpIdPlain(a: string, b: string)
    ensures match (Atoi(Trim(a)), Atoi(Trim(b)))
      case (Some(m), Some(n)) => (CmpId(a, b) < 0 <==> m < n) && (CmpId(a, b) == 0 <==> m == n)
      case _ => CmpId(a, b) == StrCmp(a, b)
  {
  }
}
