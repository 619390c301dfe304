/** The request validators of the `backend` tree (`api/validators.py`):
    ingredient list, tag list, colour code and minimum length. */
module Validators {
  import opened Wrappers
  import opened Text
  import opened Dicts
  import opened Domain
  import Seqs

  /** One `{id, amount}` entry of the request's ingredient list, with the
      amount already converted by `int()`. */
  datatype RawIngredient = RawIngredient(id: Id, amount: int)

  /** A value of the validated mapping: the catalog ingredient with its
      amount, or, for an id the catalog lacks, the bare amount. */
  datatype Entry = Resolved(ingredient: Ingredient, amount: int) | Bare(amount: int)

  /** The largest amount the validator accepts. */
  const MaxAmount := 1000

  predicate AmountOk(a: int) {
    0 < a <= MaxAmount
  }

  /** The error raised for an amount outside the accepted range. */
  function AmountError(a: int): Error {
    if a <= 0 then AmountBelowOne else AmountAboveMax
  }

  predicate AllAmountsOk(xs: seq<RawIngredient>) {
    forall i :: 0 <= i < |xs| ==> AmountOk(xs[i].amount)
  }

  /** The position of the first entry whose amount is rejected. */
  function FirstBadIndex(xs: seq<RawIngredient>): (i: nat)
    requires !AllAmountsOk(xs)
    ensures i < |xs| && !AmountOk(xs[i].amount)
    ensures forall j :: 0 <= j < i ==> AmountOk(xs[j].amount)
  {
    if !AmountOk(xs[0].amount) then 0
    else
      assert !AllAmountsOk(xs[1..]) by {
        var i :| 0 <= i < |xs| && !AmountOk(xs[i].amount);
        assert xs[1..][i - 1] == xs[i];
      }
      1 + FirstBadIndex(xs[1..])
  }

  /** The ids of the entries, in order. */
  function Ids(xs: seq<RawIngredient>): (r: seq<Id>)
    ensures |r| == |xs|
    ensures forall i :: 0 <= i < |xs| ==> r[i] == xs[i].id
  {
    if xs == [] then [] else [xs[0].id] + Ids(xs[1..])
  }

  /** The amount of the last entry carrying id `k`: a later entry for the
      same id overwrites an earlier one. */
  function LastAmount(xs: seq<RawIngredient>, k: Id): (r: Option<int>)
    ensures r.Some? <==> k in Ids(xs)
    ensures r.Some? ==> exists i :: 0 <= i < |xs| && xs[i].id == k && xs[i].amount == r.value
                                    && forall j :: i < j < |xs| ==> xs[j].id != k
  {
    if xs == [] then None
    else
      var later := LastAmount(xs[1..], k);
      assert Ids(xs) == [xs[0].id] + Ids(xs[1..]);
      if later.Some? then
        ghost var i :| 0 <= i < |xs[1..]| && xs[1..][i].id == k && xs[1..][i].amount == later.value
                       && forall j :: i < j < |xs[1..]| ==> xs[1..][j].id != k;
        assert xs[i + 1] == xs[1..][i];
        assert forall j :: i + 1 < j < |xs| ==> xs[j] == xs[1..][j - 1];
        later
      else if xs[0].id == k then
        assert forall j :: 0 < j < |xs| ==> xs[j] == xs[1..][j - 1];
        Some(xs[0].amount)
      else None
  }

  /** The first loop of `ingredient_validator`: assign each entry's amount
      under its id, then check the amount. */
  function CollectAmounts(xs: seq<RawIngredient>, acc: Dict<Id, int>): (r: Result<Dict<Id, int>, Error>)
    requires DistinctKeys(acc)
    ensures r.Success? <==> AllAmountsOk(xs)
    ensures r.Failure? ==> r.error == AmountError(xs[FirstBadIndex(xs)].amount)
    ensures r.Success? ==> DistinctKeys(r.value)
    ensures r.Success? ==> forall k :: k in KeySeq(r.value) <==> k in KeySeq(acc) || k in Ids(xs)
    ensures r.Success? ==> forall k :: Get(r.value, k) == if k in Ids(xs) then LastAmount(xs, k) else Get(acc, k)
  {
    if xs == [] then Success(acc)
    else
      var acc' := Put(acc, xs[0].id, xs[0].amount);
      PutDistinct(acc, xs[0].id, xs[0].amount);
      PutGetAll(acc, xs[0].id, xs[0].amount);
      assert Ids(xs) == [xs[0].id] + Ids(xs[1..]);
      if !AmountOk(xs[0].amount) then Failure(AmountError(xs[0].amount))
      else
        assert AllAmountsOk(xs) <==> AllAmountsOk(xs[1..]) by {
          assert forall j :: 0 < j < |xs| ==> xs[j] == xs[1..][j - 1];
        }
        CollectAmounts(xs[1..], acc')
  }

  /** The value the second loop leaves under key `k`. */
  function Lift(k: Id, amount: int, catalog: map<Id, Ingredient>): Entry {
    if k in catalog then Resolved(catalog[k], amount) else Bare(amount)
  }

  /** The second loop of `ingredient_validator`: every key the catalog knows
      gets its ingredient paired with the amount. */
  function Resolve(d: Dict<Id, int>, catalog: map<Id, Ingredient>): (r: Dict<Id, Entry>)
    ensures KeySeq(r) == KeySeq(d)
    ensures forall k :: Get(r, k) == if Get(d, k).Some? then Some(Lift(k, Get(d, k).value, catalog)) else None
  {
    if d == [] then []
    else
      var r := [(d[0].0, Lift(d[0].0, d[0].1, catalog))] + Resolve(d[1..], catalog);
      assert r[1..] == Resolve(d[1..], catalog);
      r
  }

  /** `ingredient_validator(ingredients, Ingredient)`. Rejects a missing or
      empty list and any amount outside 1..1000 (the first offending entry
      decides the message). Duplicate ids are not rejected: the last amount
      wins. Ids the catalog lacks are kept with a bare amount. */
  function IngredientValidator(ingredients: Option<seq<RawIngredient>>, catalog: map<Id, Ingredient>)
    : (r: Result<Dict<Id, Entry>, Error>)
    ensures ingredients.None? || ingredients.value == [] ==> r == Failure(NoIngredients)
    ensures ingredients.Some? && ingredients.value != [] ==>
              (r.Success? <==> AllAmountsOk(ingredients.value))
    ensures ingredients.Some? && r.Failure? && ingredients.value != [] ==>
              r.error == AmountError(ingredients.value[FirstBadIndex(ingredients.value)].amount)
    ensures r.Success? ==> DistinctKeys(r.value)
    ensures r.Success? ==> forall k :: k in KeySeq(r.value) <==> k in Ids(ingredients.value)
    ensures r.Success? ==> forall k :: k in Ids(ingredients.value) ==>
              Get(r.value, k) == Some(Lift(k, LastAmount(ingredients.value, k).value, catalog))
  {
    if ingredients.None? || ingredients.value == [] then Failure(NoIngredients)
    else
      assert DistinctKeys<Id, int>([]);
      var amounts :- CollectAmounts(ingredients.value, []);
      Success(Resolve(amounts, catalog))
  }

  /** `MinLenValidator(min_len, field)(value)`: passes iff the value has at
      least `minLen` characters. */
  function MinLen(minLen: int, value: string): (r: Result<(), Error>)
    ensures r.Success? <==> |value| >= minLen
    ensures r.Failure? ==> r.error == TooShort
  {
    if |value| < minLen then Failure(TooShort) else Success(())
  }

  /** The distinct elements of a sequence. */
  function Elements(s: seq<Id>): set<Id> {
    set x | x in s
  }

  /** A sequence has at most as many distinct elements as entries, and as
      many exactly when it has no duplicate. */
  lemma {:induction false} ElementsCard(s: seq<Id>)
    ensures |Elements(s)| <= |s|
    ensures |Elements(s)| == |s| <==> Seqs.NoDuplicates(s)
  {
    if s != [] {
      var t := s[1..];
      ElementsCard(t);
      assert Elements(s) == {s[0]} + Elements(t);
      if s[0] in t {
        assert Elements(s) == Elements(t);
        var k :| 0 <= k < |t| && t[k] == s[0];
        assert s[k + 1] == s[0];
        assert !Seqs.NoDuplicates(s);
      } else {
        assert |Elements(s)| == 1 + |Elements(t)|;
        if Seqs.NoDuplicates(s) {
          assert Seqs.NoDuplicates(t) by {
            forall i, j | 0 <= i < j < |t| ensures t[i] != t[j] {
              assert t[i] == s[i + 1] && t[j] == s[j + 1];
            }
          }
        }
        if Seqs.NoDuplicates(t) {
          forall i, j | 0 <= i < j < |s| ensures s[i] != s[j] {
            assert s[j] == t[j - 1];
            if i > 0 {
              assert s[i] == t[i - 1];
            }
          }
        }
      }
    }
  }

  /** The tags found for a list of ids are as many as the ids exactly when
      no id repeats and every id is known. */
  lemma FoundCard(ids: seq<Id>, catalog: map<Id, Tag>, found: set<Id>)
    requires found == set t | t in ids && t in catalog
    ensures |found| == |ids| <==> Seqs.NoDuplicates(ids) && AllKnown(ids, catalog)
    ensures AllKnown(ids, catalog) ==> found == Elements(ids)
  {
    ElementsCard(ids);
    assert found <= Elements(ids);
    if AllKnown(ids, catalog) {
      assert found == Elements(ids);
    } else {
      var t :| t in ids && t !in catalog;
      assert t in Elements(ids) && t !in found;
      var rest := Elements(ids) - {t};
      assert found <= rest;
      assert |rest| == |Elements(ids)| - 1;
      SubsetCard(found, rest);
    }
  }

  predicate AllKnown(ids: seq<Id>, catalog: map<Id, Tag>) {
    forall t :: t in ids ==> t in catalog
  }

  lemma SubsetCard(a: set<Id>, b: set<Id>)
    requires a <= b
    ensures |a| <= |b|
  {
    if a != {} {
      var x :| x in a;
      SubsetCard(a - {x}, b - {x});
    }
  }

  /** `tag_validator(tags_ids, Tag)`. Rejects a missing or empty list; then
      fails iff the number of tags found differs from the number of ids,
      that is iff some id is repeated or unknown. Returns the tags found. */
  function TagValidator(tagIds: Option<seq<Id>>, catalog: map<Id, Tag>): (r: Result<set<Id>, Error>)
    ensures tagIds.None? || tagIds.value == [] ==> r == Failure(NoTags)
    ensures tagIds.Some? && tagIds.value != [] ==>
              (r.Success? <==> Seqs.NoDuplicates(tagIds.value) && forall t :: t in tagIds.value ==> t in catalog)
    ensures tagIds.Some? && tagIds.value != [] && r.Failure? ==> r.error == UnknownTag
    ensures r.Success? ==> r.value == Elements(tagIds.value) && r.value <= catalog.Keys
  {
    if tagIds.None? || tagIds.value == [] then Failure(NoTags)
    else
      var ids := tagIds.value;
      var found := set t | t in ids && t in catalog;
      FoundCard(ids, catalog, found);
      if |found| != |ids| then Failure(UnknownTag) else Success(found)
  }

  /** A normalised colour code: `#` and six upper-case hex digits. */
  predicate IsNormalColor(c: string) {
    |c| == 7 && c[0] == '#' && forall i :: 1 <= i < 7 ==> IsUpperHexDigit(c[i])
  }

  /** The digits `hex_color_validator` checks: `#` stripped from both ends,
      then upper-cased. */
  function ColorCore(color: string): string {
    UpperStr(Strip(color, {'#'}))
  }

  /** `code` spells the three digits of `core`, each written twice and
      upper-cased, behind a `#`. */
  predicate DoubledDigits(core: string, code: string)
    requires |core| == 3 && |code| == 7
  {
    && code[1] == Upper(core[0]) && code[2] == Upper(core[0])
    && code[3] == Upper(core[1]) && code[4] == Upper(core[1])
    && code[5] == Upper(core[2]) && code[6] == Upper(core[2])
  }

  /** The code returned for valid digits: a three-digit code has each digit
      doubled; the result is upper-cased behind a `#`. */
  function ExpandColor(core: string): (r: string)
    requires |core| == 3 || |core| == 6
    requires AllHex(core)
    ensures IsNormalColor(r)
    ensures |core| == 3 ==> DoubledDigits(core, r)
    ensures |core| == 6 ==> r[1..] == UpperStr(core)
  {
    if |core| == 3 then UpperStr(['#', core[0], core[0], core[1], core[1], core[2], core[2]])
    else "#" + UpperStr(core)
  }

  /** `hex_color_validator(color)`: succeeds iff the stripped, upper-cased
      code has 3 or 6 characters, all hex digits; the length is checked
      first. */
  function HexColor(color: string): (r: Result<string, Error>)
    ensures r.Success? <==> (|ColorCore(color)| == 3 || |ColorCore(color)| == 6) && AllHex(ColorCore(color))
    ensures r.Failure? ==>
              r.error == if |ColorCore(color)| == 3 || |ColorCore(color)| == 6 then ColorNotHex else ColorLength
    ensures r.Success? ==> IsNormalColor(r.value)
    ensures r.Success? && |ColorCore(color)| == 6 ==> r.value == "#" + ColorCore(color)
    ensures r.Success? && |ColorCore(color)| == 3 ==> DoubledDigits(ColorCore(color), r.value)
  {
    var core := ColorCore(color);
    if |core| != 3 && |core| != 6 then Failure(ColorLength)
    else if !AllHex(core) then Failure(ColorNotHex)
    else
      UpperIdempotent(Strip(color, {'#'}));
      Success(ExpandColor(core))
  }

  /** A normalised code is a fixed point of the validator. */
  lemma NormalColorFixed(c: string)
    requires IsNormalColor(c)
    ensures HexColor(c) == Success(c)
  {
    StripLeftOne(c, {'#'});
    assert Strip(c, {'#'}) == c[1..];
    assert UpperStr(c[1..]) == c[1..];
    assert "#" + c[1..] == c;
  }

  /** Stripping a code that is `#` then six hex digits removes just the `#`. */
  lemma StripLeftOne(c: string, cs: set<char>)
    requires IsNormalColor(c) && '#' in cs && cs <= {' ', '#'}
    ensures Strip(c, cs) == c[1..]
  {
    assert c[1] !in cs;
    assert StripLeft(c[1..], cs) == c[1..];
    assert StripLeft(c, cs) == c[1..];
    assert c[6] !in cs;
    assert StripRight(c[1..], cs) == c[1..];
  }

  /** Normalising twice gives what normalising once gave. */
  lemma HexColorIdempotent(color: string)
    requires HexColor(color).Success?
    ensures HexColor(HexColor(color).value) == HexColor(color)
  {
    NormalColorFixed(HexColor(color).value);
  }
}
