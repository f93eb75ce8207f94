/**
 * The manual add form: four text fields, checked in order on submit; a
 * submission that passes both checks yields a fresh product and resets the
 * name and quantity fields.
 */
module AddProductForm {
  import opened Wrappers
  import opened Types
  import opened Text
  import Api

  /** The form's fields, as the text they hold. */
  datatype Form = Form(name: string, category: string, quantity: string, unit: string)

  /** The form as first shown: the first catalog category, one piece. */
  const Initial: Form := Form("", Api.Catalog[0].name, "1", "шт")

  datatype FormError = MissingName | BadQuantity

  datatype Outcome = Rejected(error: FormError) | Accepted(product: Product)

  /** What a submission reports, and the fields it leaves behind. */
  datatype Submission = Submission(outcome: Outcome, form: Form)

  /**
   * `handleSubmit`. `parse` is `parseFloat`, with `None` for NaN; `freshId`
   * is the uuid the new product gets.
   */
  function Submit(form: Form, freshId: string, parse: string -> Option<real>): (r: Submission)
    ensures r.outcome == Rejected(MissingName) <==> IsBlank(form.name)
    ensures r.outcome == Rejected(BadQuantity) <==>
      !IsBlank(form.name) && (parse(form.quantity).None? || parse(form.quantity).value <= 0.0)
    ensures r.outcome.Rejected? ==> r.form == form
    ensures r.outcome.Accepted? ==>
      && r.form == form.(name := "", quantity := "1")
      && r.outcome.product.id == freshId
      && r.outcome.product.name == Trim(form.name) && Trim(form.name) != ""
      && r.outcome.product.category == form.category
      && r.outcome.product.unit == form.unit
      && r.outcome.product.price.None?
      && !r.outcome.product.checked
      && Some(r.outcome.product.quantity) == parse(form.quantity)
      && r.outcome.product.quantity > 0.0
  {
    if IsBlank(form.name) then Submission(Rejected(MissingName), form)
    else
      match parse(form.quantity)
      case None => Submission(Rejected(BadQuantity), form)
      case Some(q) =>
        if q <= 0.0 then Submission(Rejected(BadQuantity), form)
        else
          var p := Product(freshId, Trim(form.name), form.category, None, q, false, form.unit);
          Submission(Accepted(p), form.(name := "", quantity := "1"))
  }

  /**
   * The fields a successful submission leaves behind are the initial ones
   * again, except for the category and unit, which stay as the user chose.
   */
  lemma SubmitResetsToInitial(form: Form, freshId: string, parse: string -> Option<real>)
    requires Submit(form, freshId, parse).outcome.Accepted?
    ensures var f := Submit(form, freshId, parse).form;
      f.(category := Initial.category, unit := Initial.unit) == Initial
    ensures Submit(Submit(form, freshId, parse).form, freshId, parse).outcome == Rejected(MissingName)
  {
    assert IsBlank("");
  }
}
