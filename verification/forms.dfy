/**
 * Gravity Forms records as the merge-tag code reads them: a form is an id and a list of fields.
 * The part of a field that describes it (`FieldDef`) is kept apart from its calculation formula
 * (`Calc`), the only part the subtotal code writes back.
 */
module Forms {
  import opened Options
  import opened Php

  /** One input of a multi-input field: its id (such as `"5.1"`) and its label. */
  datatype Input = Input(id: string, inputLabel: string)

  datatype FieldDef = FieldDef(
    id: nat,
    fieldType: string,            // `type`
    inputType: string,            // `inputType`, `""` when unset
    productField: Option<nat>,    // `productField`: the product an option or quantity field belongs to
    adminLabel: string,           // `adminLabel`, `""` when unset
    inputs: Option<seq<Input>>,   // `inputs`, `None` when it is not an array
    disableQuantity: bool)        // `disableQuantity`, as a truth value

  datatype Calc = Calc(
    formula: Option<string>,      // `calculationFormula`, `None` when unset
    orig: Option<string>,         // `origCalculationFormula`, `None` when unset
    hasSubtotal: bool)            // `hasSubtotal`

  datatype Field = Field(def: FieldDef, calculation: Calc)

  datatype Form = Form(id: nat, fields: seq<Field>)

  /** `GFFormsModel::get_input_type`: the input type when it is set (not empty), else the field type. */
  function InputType(f: FieldDef): string
  {
    if Truthy(f.inputType) then f.inputType else f.fieldType
  }

  /** The descriptions of the fields, in form order. */
  function Defs(fields: seq<Field>): (ds: seq<FieldDef>)
    ensures |ds| == |fields| && forall k :: 0 <= k < |fields| ==> ds[k] == fields[k].def
  {
    seq(|fields|, k requires 0 <= k < |fields| => fields[k].def)
  }
}
