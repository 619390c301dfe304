/** The admin's inline formset for a recipe's ingredient rows
    (`recipes/forms.py`). */
module Forms {
  import opened Wrappers
  import opened Domain

  /** One form of the formset: its `DELETE` box and its chosen ingredient. */
  datatype FormRow = FormRow(deleted: bool, ingredient: Option<Id>)

  /** A row that stays and names an ingredient: the rows the inherited
      unique check compares. */
  predicate KeptWithIngredient(row: FormRow) {
    !row.deleted && row.ingredient.Some?
  }

  /** Two kept rows name the same ingredient, which the unique constraint on
      (recipe, ingredient) forbids. */
  predicate DuplicateKept(rows: seq<FormRow>) {
    exists i, j :: 0 <= i < j < |rows| && KeptWithIngredient(rows[i]) && KeptWithIngredient(rows[j]) &&
                   rows[i].ingredient == rows[j].ingredient
  }

  /** `AmountIngredientFormSet.clean`: first the inherited model-formset
      clean, whose unique check refuses two kept rows with one ingredient;
      then rows marked for deletion are skipped, a kept row without an
      ingredient is refused, the first one ending the check, and at least
      one kept row must remain. */
  method FormsetClean(rows: seq<FormRow>) returns (r: Result<(), Error>)
    ensures DuplicateKept(rows) ==> r == Failure(NotUnique)
    ensures r.Success? <==>
              && !DuplicateKept(rows)
              && (forall i :: 0 <= i < |rows| && !rows[i].deleted ==> rows[i].ingredient.Some?)
              && (exists i :: 0 <= i < |rows| && !rows[i].deleted)
    ensures !DuplicateKept(rows) && (exists i :: 0 <= i < |rows| && !rows[i].deleted && rows[i].ingredient.None?) ==>
              r == Failure(FieldRequired)
    ensures (forall i :: 0 <= i < |rows| ==> rows[i].deleted) ==> r == Failure(NeedOneIngredient)
  {
    var seen: set<Id> := {};
    var i := 0;
    while i < |rows|
      invariant 0 <= i <= |rows|
      invariant forall x :: x in seen <==> exists j :: 0 <= j < i && KeptWithIngredient(rows[j]) && rows[j].ingredient == Some(x)
      invariant !DuplicateKept(rows[..i])
    {
      if KeptWithIngredient(rows[i]) {
        var x := rows[i].ingredient.value;
        if x in seen {
          var j :| 0 <= j < i && KeptWithIngredient(rows[j]) && rows[j].ingredient == Some(x);
          return Failure(NotUnique);
        }
        seen := seen + {x};
      }
      assert rows[..i + 1] == rows[..i] + [rows[i]];
      i := i + 1;
    }
    assert rows[..i] == rows;
    var kept := false;
    i := 0;
    while i < |rows|
      invariant 0 <= i <= |rows|
      invariant forall j :: 0 <= j < i && !rows[j].deleted ==> rows[j].ingredient.Some?
      invariant kept <==> exists j :: 0 <= j < i && !rows[j].deleted
    {
      if !rows[i].deleted {
        if rows[i].ingredient.None? {
          return Failure(FieldRequired);
        }
        kept := true;
      }
      i := i + 1;
    }
    if !kept {
      return Failure(NeedOneIngredient);
    }
    return Success(());
  }
}
