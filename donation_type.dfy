/** The closed enumeration of donation kinds, with its display labels and `fromString`. */
module DonationTypes {
  import opened Wrappers
  import opened Text

  datatype DonationType =
    | MONEY | FOOD | CLOTHING | MEDICINE | BLANKETS
    | TOYS | BOOKS | FURNITURE | HYGIENE_PRODUCTS | OTHER

  /** The constants in declaration order (`DonationType.values()`). */
  const AllTypes: seq<DonationType> :=
    [MONEY, FOOD, CLOTHING, MEDICINE, BLANKETS, TOYS, BOOKS, FURNITURE, HYGIENE_PRODUCTS, OTHER]

  /** `name()`: the constant's identifier. */
  function Name(t: DonationType): string {
    match t
    case MONEY => "MONEY"
    case FOOD => "FOOD"
    case CLOTHING => "CLOTHING"
    case MEDICINE => "MEDICINE"
    case BLANKETS => "BLANKETS"
    case TOYS => "TOYS"
    case BOOKS => "BOOKS"
    case FURNITURE => "FURNITURE"
    case HYGIENE_PRODUCTS => "HYGIENE_PRODUCTS"
    case OTHER => "OTHER"
  }

  /** `getDisplayName()`: the human-readable label given to the constant. */
  function DisplayName(t: DonationType): string {
    match t
    case MONEY => "Money"
    case FOOD => "Food"
    case CLOTHING => "Clothing"
    case MEDICINE => "Medicine"
    case BLANKETS => "Blankets"
    case TOYS => "Toys"
    case BOOKS => "Books"
    case FURNITURE => "Furniture"
    case HYGIENE_PRODUCTS => "Hygiene Products"
    case OTHER => "Other"
  }

  /** The test inside `fromString`'s loop: the name or the label equals `s` ignoring case. */
  predicate Matches(t: DonationType, s: string) {
    EqualsIgnoreCase(Name(t), s) || EqualsIgnoreCase(DisplayName(t), s)
  }

  /** There are exactly ten types, listed once each in declaration order. */
  lemma AllTypesComplete()
    ensures |AllTypes| == 10
    ensures forall t :: t in AllTypes
    ensures forall i, j :: 0 <= i < j < |AllTypes| ==> AllTypes[i] != AllTypes[j]
  {
    forall t ensures t in AllTypes {
      match t
      case MONEY => assert AllTypes[0] == t;
      case FOOD => assert AllTypes[1] == t;
      case CLOTHING => assert AllTypes[2] == t;
      case MEDICINE => assert AllTypes[3] == t;
      case BLANKETS => assert AllTypes[4] == t;
      case TOYS => assert AllTypes[5] == t;
      case BOOKS => assert AllTypes[6] == t;
      case FURNITURE => assert AllTypes[7] == t;
      case HYGIENE_PRODUCTS => assert AllTypes[8] == t;
      case OTHER => assert AllTypes[9] == t;
    }
  }

  /**
   * The first element of `ts` that matches `s` (the loop of `fromString`, which returns
   * on the first hit), or None when none does.
   */
  function FirstMatch(ts: seq<DonationType>, s: string): (r: Option<DonationType>)
    ensures r.None? <==> forall i :: 0 <= i < |ts| ==> !Matches(ts[i], s)
    ensures r.Some? ==> exists k :: 0 <= k < |ts| && ts[k] == r.value && Matches(ts[k], s)
                                    && forall j :: 0 <= j < k ==> !Matches(ts[j], s)
  {
    if ts == [] then None
    else if Matches(ts[0], s) then Some(ts[0])
    else
      var r := FirstMatch(ts[1..], s);
      assert r.Some? ==> exists k :: 0 < k < |ts| && ts[k] == r.value && Matches(ts[k], s)
                                     && forall j :: 0 <= j < k ==> !Matches(ts[j], s) by {
        if r.Some? {
          var k :| 0 <= k < |ts[1..]| && ts[1..][k] == r.value && Matches(ts[1..][k], s)
                   && forall j :: 0 <= j < k ==> !Matches(ts[1..][j], s);
          assert forall j :: 0 <= j < k + 1 ==> !Matches(ts[j], s) by {
            forall j | 0 < j < k + 1 ensures !Matches(ts[j], s) { assert ts[j] == ts[1..][j - 1]; }
          }
        }
      }
      r
  }

  /** `DonationType.fromString`: a failure stands for the IllegalArgumentException it throws. */
  function FromString(s: string): Result<DonationType, string> {
    match FirstMatch(AllTypes, s)
    case Some(t) => Success(t)
    case None => Failure("Unknown donation type: " + s)
  }

  /** The length and the lower-cased first letter shared by a type's name and label. */
  function Signature(t: DonationType): (int, char) {
    match t
    case MONEY => (5, 'm')
    case FOOD => (4, 'f')
    case CLOTHING => (8, 'c')
    case MEDICINE => (8, 'm')
    case BLANKETS => (8, 'b')
    case TOYS => (4, 't')
    case BOOKS => (5, 'b')
    case FURNITURE => (9, 'f')
    case HYGIENE_PRODUCTS => (16, 'h')
    case OTHER => (5, 'o')
  }

  /** A string that matches `t` has `t`'s signature. */
  lemma MatchSignature(t: DonationType, s: string)
    requires Matches(t, s)
    ensures |s| > 0 && Signature(t) == (|s|, LowerChar(s[0]))
  {
    var a := if EqualsIgnoreCase(Name(t), s) then Name(t) else DisplayName(t);
    EqualsIgnoreCaseHead(a, s);
  }

  /** No string is matched by two different types: names and labels differ ignoring case. */
  lemma MatchUnique(t: DonationType, u: DonationType, s: string)
    requires Matches(t, s) && Matches(u, s)
    ensures t == u
  {
    MatchSignature(t, s);
    MatchSignature(u, s);
  }

  /** `fromString` returns the unique type that matches, and fails exactly when none does. */
  lemma FromStringSpec(s: string)
    ensures FromString(s).Success? <==> exists t :: Matches(t, s)
    ensures forall t :: Matches(t, s) ==> FromString(s) == Success(t)
  {
    AllTypesComplete();
    if FirstMatch(AllTypes, s).Some? {
      forall t | Matches(t, s) ensures FromString(s) == Success(t) {
        MatchUnique(t, FirstMatch(AllTypes, s).value, s);
      }
    } else {
      forall t ensures !Matches(t, s) {
        assert t in AllTypes;
        var k :| 0 <= k < |AllTypes| && AllTypes[k] == t;
      }
    }
  }

  /** `fromString(t.name()) == t`. */
  lemma FromStringName(t: DonationType)
    ensures FromString(Name(t)) == Success(t)
  {
    EqualsIgnoreCaseReflexive(Name(t));
    FromStringSpec(Name(t));
  }

  /** `fromString(t.getDisplayName()) == t`. */
  lemma FromStringDisplayName(t: DonationType)
    ensures FromString(DisplayName(t)) == Success(t)
  {
    EqualsIgnoreCaseReflexive(DisplayName(t));
    FromStringSpec(DisplayName(t));
  }

  /** Matching ignores case: strings equal ignoring case parse to the same result's type. */
  lemma FromStringIgnoresCase(s: string, s': string)
    requires EqualsIgnoreCase(s, s')
    ensures FromString(s).Success? <==> FromString(s').Success?
    ensures FromString(s).Success? ==> FromString(s) == FromString(s')
  {
    EqualsIgnoreCaseSymmetric(s, s');
    forall t ensures Matches(t, s) <==> Matches(t, s') {
      if EqualsIgnoreCase(Name(t), s) { EqualsIgnoreCaseTransitive(Name(t), s, s'); }
      if EqualsIgnoreCase(DisplayName(t), s) { EqualsIgnoreCaseTransitive(DisplayName(t), s, s'); }
      if EqualsIgnoreCase(Name(t), s') { EqualsIgnoreCaseTransitive(Name(t), s', s); }
      if EqualsIgnoreCase(DisplayName(t), s') { EqualsIgnoreCaseTransitive(DisplayName(t), s', s); }
    }
    FromStringSpec(s);
    FromStringSpec(s');
  }
}
