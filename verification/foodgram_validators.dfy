/** The request validators of the `foodgram` tree (`foodgram/api/validators.py`).
    They differ from the `backend` ones: the ingredient validator rejects
    repeated ids, has no upper bound and returns the id list; the colour
    validator also strips spaces and checks the digits before upper-casing. */
module FoodgramValidators {
  import opened Wrappers
  import opened Text
  import opened Domain
  import Seqs
  import V = Validators

  /** `ingredient_validator(ingredients)`: rejects a missing or empty list,
      then any amount <= 0 (checked entry by entry, before duplicates), then
      a repeated id. On success returns the ids in input order. */
  method IngredientValidator(ingredients: Option<seq<V.RawIngredient>>) returns (r: Result<seq<Id>, Error>)
    ensures ingredients.None? || ingredients.value == [] ==> r == Failure(NoIngredients)
    ensures ingredients.Some? && ingredients.value != [] ==>
              (r.Success? <==> AllPositive(ingredients.value) && Seqs.NoDuplicates(V.Ids(ingredients.value)))
    ensures ingredients.Some? && ingredients.value != [] && !AllPositive(ingredients.value) ==>
              r == Failure(AmountBelowOne)
    ensures ingredients.Some? && AllPositive(ingredients.value) && !Seqs.NoDuplicates(V.Ids(ingredients.value)) ==>
              r == Failure(DuplicateIngredient)
    ensures r.Success? ==> r.value == V.Ids(ingredients.value)
  {
    if ingredients.None? || ingredients.value == [] {
      return Failure(NoIngredients);
    }
    var xs := ingredients.value;
    var ids: seq<Id> := [];
    var i := 0;
    while i < |xs|
      invariant 0 <= i <= |xs|
      invariant ids == V.Ids(xs)[..i]
      invariant forall j :: 0 <= j < i ==> xs[j].amount > 0
    {
      if xs[i].amount <= 0 {
        return Failure(AmountBelowOne);
      }
      ids := ids + [xs[i].id];
      i := i + 1;
    }
    assert ids == V.Ids(xs);
    V.ElementsCard(ids);
    if |V.Elements(ids)| != |ids| {
      return Failure(DuplicateIngredient);
    }
    return Success(ids);
  }

  predicate AllPositive(xs: seq<V.RawIngredient>) {
    forall i :: 0 <= i < |xs| ==> xs[i].amount > 0
  }

  /** The digits this tree's `hex_color_validator` checks: spaces and `#`
      stripped from both ends, case kept. */
  function ColorCore(color: string): string {
    Strip(color, {' ', '#'})
  }

  /** `hex_color_validator(color)`: succeeds iff the stripped code has 3 or 6
      characters, all hex digits of either case; returns upper-case `#RRGGBB`. */
  function HexColor(color: string): (r: Result<string, Error>)
    ensures r.Success? <==> (|ColorCore(color)| == 3 || |ColorCore(color)| == 6) && AllHex(ColorCore(color))
    ensures r.Failure? ==>
              r.error == if |ColorCore(color)| == 3 || |ColorCore(color)| == 6 then ColorNotHex else ColorLength
    ensures r.Success? ==> V.IsNormalColor(r.value)
    ensures r.Success? && |ColorCore(color)| == 6 ==> r.value == "#" + UpperStr(ColorCore(color))
    ensures r.Success? && |ColorCore(color)| == 3 ==> V.DoubledDigits(ColorCore(color), r.value)
  {
    var core := ColorCore(color);
    if |core| != 3 && |core| != 6 then Failure(ColorLength)
    else if !AllHex(core) then Failure(ColorNotHex)
    else Success(V.ExpandColor(core))
  }

  /** A normalised code is a fixed point, so normalising is idempotent. */
  lemma HexColorIdempotent(color: string)
    requires HexColor(color).Success?
    ensures HexColor(HexColor(color).value) == HexColor(color)
  {
    var c := HexColor(color).value;
    V.StripLeftOne(c, {' ', '#'});
    assert UpperStr(c[1..]) == c[1..];
    assert "#" + c[1..] == c;
  }

  /** Upper-casing neither creates nor destroys hex digits. */
  lemma UpperKeepsHex(s: string)
    ensures AllHex(UpperStr(s)) <==> AllHex(s)
  {
  }

  /** Where stripping spaces as well makes no difference, the two trees'
      colour validators agree. */
  lemma TreesAgreeWithoutSpaces(color: string)
    requires Strip(color, {'#'}) == Strip(color, {' ', '#'})
    ensures V.HexColor(color) == HexColor(color)
  {
    var core := Strip(color, {'#'});
    UpperKeepsHex(core);
    UpperIdempotent(core);
    if V.HexColor(color).Success? && |core| == 3 {
      var a := V.HexColor(color).value;
      var b := HexColor(color).value;
      assert forall i :: 0 <= i < 7 ==> a[i] == b[i];
      assert a == b;
    }
  }

  /** A code behind a leading space: accepted here, rejected by the
      `backend` tree, which strips only `#`. */
  lemma SpaceOnlyHere(c: string)
    requires |c| == 3 && AllHex(c)
    ensures HexColor(" #" + c).Success?
    ensures V.HexColor(" #" + c).Failure?
  {
    LeadingSpaceAccepted(c);
    LeadingSpaceRejectedByBackend(c);
  }

  lemma LeadingSpaceAccepted(c: string)
    requires |c| == 3 && AllHex(c)
    ensures HexColor(" #" + c).Success?
  {
    var cs := {' ', '#'};
    var s := " #" + c;
    assert s[1..] == "#" + c;
    assert ("#" + c)[1..] == c;
    assert StripLeft(c, cs) == c;
    assert StripLeft(s, cs) == StripLeft("#" + c, cs) == c;
    assert StripRight(c, cs) == c;
    assert ColorCore(s) == c;
  }

  lemma LeadingSpaceRejectedByBackend(c: string)
    requires |c| == 3 && AllHex(c)
    ensures V.HexColor(" #" + c).Failure?
  {
    var s := " #" + c;
    assert StripLeft(s, {'#'}) == s;
    assert StripRight(s, {'#'}) == s;
  }
}
