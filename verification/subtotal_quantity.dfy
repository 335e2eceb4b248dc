/**
 * The `{subtotal_quantity}` merge tag of calculation formulas. The tag is replaced by an arithmetic
 * formula over the merge tags of the form's products: for each product other than the field being
 * calculated, `( ( price + options ) * quantity )`, all of them summed and shipping counted as `0`.
 */
module SubtotalQuantity {
  import opened Options
  import opened Strings
  import opened Php
  import opened Scanner
  import opened Forms
  import opened Host

  /** The merge tag this module replaces. */
  const SubtotalTag := "{subtotal_quantity}"

  // ---- pricing fields -----------------------------------------------------------------------------

  /** A product with the option fields and the quantity field that belong to it. */
  datatype ProductGroup = ProductGroup(product: FieldDef, options: seq<FieldDef>, quantity: Option<FieldDef>)

  /** The product groups and the shipping fields of a form. */
  datatype Pricing = Pricing(products: seq<ProductGroup>, shipping: seq<FieldDef>)

  /**
   * `GFCommon::get_product_fields_by_type($form, [$kind], $productId)`: the fields of that type that
   * belong to the product, in form order.
   */
  function FieldsOfProduct(defs: seq<FieldDef>, kind: string, productId: nat): (r: seq<FieldDef>)
    ensures forall f :: f in r ==> f in defs && f.fieldType == kind && f.productField == Some(productId)
    ensures forall f :: f in defs && f.fieldType == kind && f.productField == Some(productId) ==> f in r
    decreases |defs|
  {
    if defs == [] then []
    else
      var rest := FieldsOfProduct(defs[..|defs| - 1], kind, productId);
      var last := defs[|defs| - 1];
      assert defs == defs[..|defs| - 1] + [last];
      if last.fieldType == kind && last.productField == Some(productId) then rest + [last] else rest
  }

  /** `GFCommon::get_fields_by_type($form, [$kind])`. */
  function FieldsOfType(defs: seq<FieldDef>, kind: string): (r: seq<FieldDef>)
    ensures forall f :: f in r ==> f in defs && f.fieldType == kind
    ensures forall f :: f in defs && f.fieldType == kind ==> f in r
    decreases |defs|
  {
    if defs == [] then []
    else
      var rest := FieldsOfType(defs[..|defs| - 1], kind);
      var last := defs[|defs| - 1];
      assert defs == defs[..|defs| - 1] + [last];
      if last.fieldType == kind then rest + [last] else rest
  }

  /** Fields of a type are taken in form order: those of `a` before those of `b`. */
  lemma {:induction false} FieldsOfTypeAppend(a: seq<FieldDef>, b: seq<FieldDef>, kind: string)
    ensures FieldsOfType(a + b, kind) == FieldsOfType(a, kind) + FieldsOfType(b, kind)
    decreases |b|
  {
    if b == [] {
      assert a + b == a;
    } else {
      var init := b[..|b| - 1];
      assert (a + b)[..|a + b| - 1] == a + init;
      FieldsOfTypeAppend(a, init, kind);
    }
  }

  /** The fields of a product are taken in form order: those of `a` before those of `b`. */
  lemma {:induction false} FieldsOfProductAppend(a: seq<FieldDef>, b: seq<FieldDef>, kind: string, productId: nat)
    ensures FieldsOfProduct(a + b, kind, productId) == FieldsOfProduct(a, kind, productId) + FieldsOfProduct(b, kind, productId)
    decreases |b|
  {
    if b == [] {
      assert a + b == a;
    } else {
      var init := b[..|b| - 1];
      assert (a + b)[..|a + b| - 1] == a + init;
      FieldsOfProductAppend(a, init, kind, productId);
    }
  }

  /** The group of a product field: its options and its first quantity field (only one may exist). */
  function GroupOf(product: FieldDef, all: seq<FieldDef>): ProductGroup {
    var quantities := FieldsOfProduct(all, "quantity", product.id);
    ProductGroup(product, FieldsOfProduct(all, "option", product.id), if quantities == [] then None else Some(quantities[0]))
  }

  /** One group per field of type `product` among `defs`, in form order. */
  function ProductGroups(defs: seq<FieldDef>, all: seq<FieldDef>): (r: seq<ProductGroup>)
    ensures forall g :: g in r ==> g.product in defs && g.product.fieldType == "product" && g == GroupOf(g.product, all)
    ensures forall f :: f in defs && f.fieldType == "product" ==> GroupOf(f, all) in r
    ensures |r| == |FieldsOfType(defs, "product")|
    ensures forall k :: 0 <= k < |r| ==> r[k] == GroupOf(FieldsOfType(defs, "product")[k], all)
    decreases |defs|
  {
    if defs == [] then []
    else
      var rest := ProductGroups(defs[..|defs| - 1], all);
      var last := defs[|defs| - 1];
      assert defs == defs[..|defs| - 1] + [last];
      if last.fieldType == "product" then rest + [GroupOf(last, all)] else rest
  }

  /** What `get_pricing_fields($form)` returns. */
  function PricingOf(defs: seq<FieldDef>): Pricing {
    Pricing(ProductGroups(defs, defs), FieldsOfType(defs, "shipping"))
  }

  /** `get_pricing_fields($form)`. */
  method GetPricingFields(form: Form) returns (p: Pricing)
    ensures p == PricingOf(Defs(form.fields))
  {
    var defs := Defs(form.fields);
    var products: seq<ProductGroup> := [];
    var k := 0;
    while k < |defs|
      invariant 0 <= k <= |defs|
      invariant products == ProductGroups(defs[..k], defs)
    {
      var field := defs[k];
      assert defs[..k + 1][..k] == defs[..k];
      if field.fieldType == "product" {
        var options := FieldsOfProduct(defs, "option", field.id);
        var quantities := FieldsOfProduct(defs, "quantity", field.id);
        var quantity := if quantities == [] then None else Some(quantities[0]);
        products := products + [ProductGroup(field, options, quantity)];
      }
      k := k + 1;
    }
    assert defs[..k] == defs;
    p := Pricing(products, FieldsOfType(defs, "shipping"));
  }

  // ---- renumbering option inputs ------------------------------------------------------------------

  /** The `n`-th choice number (from 1): the `n`-th positive integer that is not a multiple of 10. */
  function ChoiceNumber(n: nat): nat
    requires n >= 1
  {
    n + (n - 1) / 9
  }

  /** Choice numbers are never a multiple of 10, and exactly `n` positive non-multiples of 10 are at most the `n`-th. */
  lemma ChoiceNumberIsNth(n: nat)
    requires n >= 1
    ensures ChoiceNumber(n) % 10 != 0
    ensures ChoiceNumber(n) - ChoiceNumber(n) / 10 == n
  {
    var q := (n - 1) / 9;
    var r := (n - 1) % 9;
    assert n - 1 == 9 * q + r;
    assert ChoiceNumber(n) == 10 * q + r + 1;
  }

  /** The counter of the loop: the next choice number is one more, skipping a multiple of 10. */
  lemma ChoiceNumberNext(n: nat)
    requires n >= 1
    ensures ChoiceNumber(n + 1) == if (ChoiceNumber(n) + 1) % 10 == 0 then ChoiceNumber(n) + 2 else ChoiceNumber(n) + 1
  {
    var q := (n - 1) / 9;
    var r := (n - 1) % 9;
    assert n - 1 == 9 * q + r;
    assert ChoiceNumber(n) == 10 * q + r + 1;
    if r == 8 {
      assert n == 9 * (q + 1);
      assert ChoiceNumber(n + 1) == 10 * (q + 1) + 1;
    } else {
      assert n == 9 * q + (r + 1);
      assert ChoiceNumber(n + 1) == 10 * q + r + 2;
    }
  }

  /** Choice numbers strictly increase. */
  lemma ChoiceNumberIncreasing(m: nat, n: nat)
    requires 1 <= m < n
    ensures ChoiceNumber(m) < ChoiceNumber(n)
  {
  }

  /** Fifteen inputs are numbered 1 to 9, then 11 to 16. */
  lemma FifteenChoices()
    ensures seq(15, k requires 0 <= k < 15 => ChoiceNumber(k + 1)) == [1, 2, 3, 4, 5, 6, 7, 8, 9, 11, 12, 13, 14, 15, 16]
  {
  }

  /** The id the `k`-th input (from 0) of field `fieldId` is given: `fieldId.choice`. */
  function InputId(fieldId: nat, k: nat): string {
    NatToString(fieldId) + "." + NatToString(ChoiceNumber(k + 1))
  }

  function RenumberedInputs(fieldId: nat, inputs: seq<Input>): (r: seq<Input>)
    ensures |r| == |inputs|
    ensures forall k :: 0 <= k < |r| ==> r[k] == inputs[k].(id := InputId(fieldId, k))
  {
    seq(|inputs|, k requires 0 <= k < |inputs| => inputs[k].(id := InputId(fieldId, k)))
  }

  /** The counter before the `k`-th input, with the multiple of 10 skipped, is the `k+1`-th choice number. */
  lemma ChoiceCounter(k: nat, choice: nat, next: nat)
    requires choice == if k == 0 then 1 else ChoiceNumber(k) + 1
    requires next == k + 1
    ensures (if choice % 10 == 0 then choice + 1 else choice) == ChoiceNumber(next)
  {
    if k > 0 {
      ChoiceNumberNext(k);
    }
  }

  /** The inputs of an option field renumbered `base.1`, `base.2`, …, skipping multiples of 10. */
  /** The id the loop gives input `k` is the `k`-th input id. */
  lemma InputIdOfCounter(fieldId: nat, k: nat, before: nat, choice: nat)
    requires (if before % 10 == 0 then before + 1 else before) == ChoiceNumber(k + 1)
    requires choice == if before % 10 == 0 then before + 1 else before
    ensures InputId(fieldId, k) == NatToString(fieldId) + "." + NatToString(choice)
  {
  }

  method RenumberInputs(fieldId: nat, inputs: array<Input>)
    modifies inputs
    ensures inputs[..] == RenumberedInputs(fieldId, old(inputs[..]))
  {
    var choice: nat := 1;
    var k: nat := 0;
    while k < inputs.Length
      invariant k <= inputs.Length
      invariant choice == if k == 0 then 1 else ChoiceNumber(k) + 1
      invariant forall j :: 0 <= j < k ==> inputs[j] == old(inputs[j]).(id := InputId(fieldId, j))
      invariant forall j :: k <= j < inputs.Length ==> inputs[j] == old(inputs[j])
    {
      var next: nat := k + 1;
      ChoiceCounter(k, choice, next);
      ghost var before := choice;
      if choice % 10 == 0 {
        choice := choice + 1;
      }
      InputIdOfCounter(fieldId, k, before, choice);
      inputs[k] := inputs[k].(id := NatToString(fieldId) + "." + NatToString(choice));
      choice := choice + 1;
      k := next;
    }
  }

  // ---- product, option and quantity tags ----------------------------------------------------------

  /** `$tags[$i]['tag']`: the tag at that index, `""` (PHP `null`) when there is none. */
  function NthTag(tags: seq<string>, i: nat): (t: string)
    ensures i < |tags| ==> t == tags[i]
    ensures i >= |tags| ==> t == ""
  {
    if i < |tags| then tags[i] else ""
  }

  /** Product types that carry a single price. */
  predicate IsSingleProduct(f: FieldDef) {
    var t := InputType(f);
    t == "singleproduct" || t == "calculation" || t == "hiddenproduct"
  }

  /**
   * The quantity of a group: the first tag of its quantity field when it has one; otherwise the
   * third tag of a single product whose quantity is enabled; otherwise the constant `1`.
   */
  function QuantityTag(g: ProductGroup, env: Env): (q: string)
    ensures g.quantity.Some? ==> q == NthTag(env.mergeTagsOf(g.quantity.value), 0)
    ensures g.quantity.None? && IsSingleProduct(g.product) && !g.product.disableQuantity ==>
      q == NthTag(env.mergeTagsOf(g.product), 2)
    ensures g.quantity.None? && (!IsSingleProduct(g.product) || g.product.disableQuantity) ==> q == "1"
  {
    match g.quantity
    case Some(qf) => NthTag(env.mergeTagsOf(qf), 0)
    case None =>
      if IsSingleProduct(g.product) && !g.product.disableQuantity then NthTag(env.mergeTagsOf(g.product), 2) else "1"
  }

  /** The price tags of a group: only the second tag of a single product, every tag otherwise. */
  function ProductTags(g: ProductGroup, env: Env): (ts: seq<string>)
    ensures IsSingleProduct(g.product) ==> ts == [NthTag(env.mergeTagsOf(g.product), 1)]
    ensures !IsSingleProduct(g.product) ==> ts == env.mergeTagsOf(g.product)
  {
    var tags := env.mergeTagsOf(g.product);
    if IsSingleProduct(g.product) then [NthTag(tags, 1)] else tags
  }

  /** An option field with its inputs renumbered (a field without an inputs array is left as it is). */
  function RenumberedOption(opt: FieldDef): (r: FieldDef)
    ensures r.id == opt.id && r.fieldType == opt.fieldType && r.inputType == opt.inputType
    ensures opt.inputs.None? ==> r == opt
    ensures opt.inputs.Some? ==> r.inputs == Some(RenumberedInputs(opt.id, opt.inputs.value))
  {
    match opt.inputs
    case None => opt
    case Some(ins) => opt.(inputs := Some(RenumberedInputs(opt.id, ins)))
  }

  /** The tags of an option field after renumbering, without the first one for a checkbox field. */
  function OptionFieldTags(opt: FieldDef, env: Env): (ts: seq<string>)
    ensures InputType(opt) != "checkbox" ==> ts == env.mergeTagsOf(RenumberedOption(opt))
    ensures InputType(opt) == "checkbox" && env.mergeTagsOf(RenumberedOption(opt)) != [] ==>
      ts == env.mergeTagsOf(RenumberedOption(opt))[1..]
  {
    var tags := env.mergeTagsOf(RenumberedOption(opt));
    if InputType(opt) == "checkbox" && tags != [] then tags[1..] else tags
  }

  /** The option tags of a group: those of each option field, in order. */
  function OptionTags(opts: seq<FieldDef>, env: Env): seq<string>
    decreases |opts|
  {
    if opts == [] then [] else OptionTags(opts[..|opts| - 1], env) + OptionFieldTags(opts[|opts| - 1], env)
  }

  /** Collects the option tags, renumbering each option field's inputs in an array first. */
  method CollectOptionTags(opts: seq<FieldDef>, env: Env) returns (tags: seq<string>)
    ensures tags == OptionTags(opts, env)
  {
    tags := [];
    for i := 0 to |opts|
      invariant tags == OptionTags(opts[..i], env)
    {
      var fieldTags := CollectFieldTags(opts[i], env);
      assert opts[..i + 1][..i] == opts[..i];
      tags := tags + fieldTags;
    }
    assert opts[..|opts|] == opts;
  }

  /** The body of the loop over option fields: renumber the inputs in an array, then take the field's tags. */
  method CollectFieldTags(opt: FieldDef, env: Env) returns (fieldTags: seq<string>)
    ensures fieldTags == OptionFieldTags(opt, env)
  {
    var renumbered := opt;
    if opt.inputs.Some? {
      var ins := opt.inputs.value;
      var arr := new Input[|ins|](j requires 0 <= j < |ins| => ins[j]);
      assert arr[..] == ins;
      RenumberInputs(opt.id, arr);
      renumbered := opt.(inputs := Some(arr[..]));
    }
    fieldTags := env.mergeTagsOf(renumbered);
    if InputType(opt) == "checkbox" && fieldTags != [] {
      fieldTags := fieldTags[1..];
    }
  }

  /** A group's term: `( ( price + options ) * quantity )`. */
  function GroupTerm(g: ProductGroup, env: Env): string {
    "( ( " + Implode(" + ", ProductTags(g, env) + OptionTags(g.options, env)) + " ) * " + QuantityTag(g, env) + " )"
  }

  // ---- the quantity filter ----------------------------------------------------------------------

  /** The input id `has_valid_quantity` captures from the first `{name:id}` or `{name:id:modifier}`, or `""`. */
  function QtyInputId(tag: string): (id: string)
    ensures FirstMatch(QtyTag, tag, 0).None? ==> id == ""
  {
    match FirstMatch(QtyTag, tag, 0)
    case None => ""
    case Some(sp) =>
      assert MatchAt(QtyTag, tag, sp.start).Some?;
      var sh := QtyAt(tag, sp.start).value;
      tag[sh.idStart..sh.idEnd]
  }

  /** `has_valid_quantity($tag)`: a numeric tag must be positive, otherwise the posted value of its input must be. */
  predicate HasValidQuantity(tag: string, env: Env) {
    if IsNumeric(tag) then FloatPositive(tag)
    else FloatPositive(PostParam(env, "input_" + ReplaceAll(QtyInputId(tag), ".", "_")))
  }

  /** A constant quantity is valid exactly when it is positive; the default `1` always is. */
  lemma ConstantQuantity(n: nat, env: Env)
    ensures HasValidQuantity(NatToString(n), env) <==> n > 0
    ensures HasValidQuantity("1", env)
  {
    NatStringNumeric(n);
    NatStringNumeric(1);
    assert NatToString(1) == "1";
  }

  /** The lazy prefix of the quantity pattern passes over characters that are neither `{` nor `:`. */
  lemma {:induction false} QtyColonSkip(s: string, k: nat, c: nat)
    requires k <= c < |s|
    requires forall j :: k <= j < c ==> s[j] != '{' && s[j] != ':'
    ensures QtyColon(s, k) == QtyColon(s, c)
    decreases c - k
  {
    if k < c {
      QtyColonSkip(s, k + 1, c);
    }
  }

  /** `digits.digits}` at `j` is an input id that closes the tag. */
  lemma QtyRestOf(s: string, j: nat, n: string, m: string)
    requires |n| >= 1 && |m| >= 1 && AllChars(n, IsDigit) && AllChars(m, IsDigit)
    requires j + |n| + |m| + 2 == |s| && s[j..] == n + "." + m + "}"
    ensures QtyRest(s, j) == Some((j + |n| + 1 + |m|, |s|))
  {
    var d := j + |n|;
    forall k | j <= k < d ensures IsDigit(s[k]) {
      assert s[k] == s[j..][k - j];
    }
    assert s[d] == s[j..][|n|];
    RunEndExact(s, j, d, IsDigit);
    var e := d + 1 + |m|;
    forall k | d + 1 <= k < e ensures IsDigit(s[k]) {
      assert s[k] == s[j..][k - j];
    }
    assert s[e] == s[j..][|n| + 1 + |m|];
    RunEndExact(s, d + 1, e, IsDigit);
  }

  /** The input id of `{name:n.m}` is `n.m`. */
  lemma QtyInputIdOf(name: string, n: string, m: string)
    requires '{' !in name && ':' !in name
    requires |n| >= 1 && |m| >= 1 && AllChars(n, IsDigit) && AllChars(m, IsDigit)
    ensures QtyInputId("{" + name + ":" + n + "." + m + "}") == n + "." + m
  {
    var tag := "{" + name + ":" + n + "." + m + "}";
    var idStart := |name| + 2;
    var idEnd := idStart + |n| + 1 + |m|;
    QtyAtOf(name, n, m);
    assert FirstMatch(QtyTag, tag, 0) == Some(Span(0, |tag|));
    assert tag[idStart..idEnd] == n + "." + m;
  }

  lemma QtyAtOf(name: string, n: string, m: string)
    requires '{' !in name && ':' !in name
    requires |n| >= 1 && |m| >= 1 && AllChars(n, IsDigit) && AllChars(m, IsDigit)
    ensures QtyAt("{" + name + ":" + n + "." + m + "}", 0)
         == Some(QtyShape(|name| + 2, |name| + 3 + |n| + |m|, |name| + 4 + |n| + |m|))
  {
    var tag := "{" + name + ":" + n + "." + m + "}";
    var c := |name| + 1;
    forall j | 1 <= j < c ensures tag[j] != '{' && tag[j] != ':' {
      assert tag[j] == name[j - 1];
    }
    QtyTagTail(name, n + "." + m + "}");
    QtyAtColon(tag, c, n, m);
  }

  /** `{`, a name without `{` or `:`, a colon at `c`, then `n.m}`: a quantity tag with id `n.m`. */
  lemma QtyAtColon(s: string, c: nat, n: string, m: string)
    requires |n| >= 1 && |m| >= 1 && AllChars(n, IsDigit) && AllChars(m, IsDigit)
    requires 0 < c && c + |n| + |m| + 3 == |s| && s[0] == '{' && s[c] == ':'
    requires forall j :: 1 <= j < c ==> s[j] != '{' && s[j] != ':'
    requires s[c + 1..] == n + "." + m + "}"
    ensures QtyAt(s, 0) == Some(QtyShape(c + 1, c + 1 + |n| + 1 + |m|, |s|))
  {
    QtyColonSkip(s, 1, c);
    QtyRestOf(s, c + 1, n, m);
    QtyColonHit(s, c, c + 1 + |n| + 1 + |m|, |s|);
  }

  /** A colon followed by a quantity id ends the lazy prefix. */
  lemma QtyColonHit(s: string, k: nat, idEnd: nat, end: nat)
    requires k < |s| && s[k] == ':' && QtyRest(s, k + 1) == Some((idEnd, end))
    ensures QtyColon(s, k) == Some(QtyShape(k + 1, idEnd, end))
  {
  }

  /** What follows the name and its colon in `{name:rest`. */
  lemma QtyTagTail(name: string, rest: string)
    ensures ("{" + name + ":" + rest)[|name| + 1] == ':'
    ensures ("{" + name + ":" + rest)[|name| + 2..] == rest
  {
    assert "{" + name + ":" + rest == ("{" + name + ":") + rest;
  }

  /** A tag that starts with a brace is not numeric. */
  lemma BraceNotNumeric(tag: string)
    requires |tag| > 0 && tag[0] == '{'
    ensures !IsNumeric(tag)
  {
    SkipSpaceNoSpace(tag);
    assert DropSign(tag) == tag;
    assert DigitPrefix(tag) == [];
    assert tag[0..] == tag;
  }

  /** The posted field of input `n.m` is named `input_n_m`. */
  lemma PostedInputName(n: string, m: string)
    requires AllChars(n, IsDigit) && AllChars(m, IsDigit)
    ensures ReplaceAll(n + "." + m, ".", "_") == n + "_" + m
  {
    ReplaceAllChar(n + "." + m, '.', '_');
    SwapCharConcat(n + ".", m, '.', '_');
    SwapCharConcat(n, ".", '.', '_');
    assert '.' !in n by {
      forall k | 0 <= k < |n| ensures n[k] != '.' { assert IsDigit(n[k]); }
    }
    assert '.' !in m by {
      forall k | 0 <= k < |m| ensures m[k] != '.' { assert IsDigit(m[k]); }
    }
    SwapCharFree(n, '.', '_');
    SwapCharFree(m, '.', '_');
  }

  /** The quantity tag `{name:n.m}` of an input is valid exactly when `input_n_m` was posted with a positive value. */
  lemma InputQuantity(name: string, n: string, m: string, env: Env)
    requires '{' !in name && ':' !in name
    requires |n| >= 1 && |m| >= 1 && AllChars(n, IsDigit) && AllChars(m, IsDigit)
    ensures HasValidQuantity("{" + name + ":" + n + "." + m + "}", env) <==>
      FloatPositive(PostParam(env, "input_" + n + "_" + m))
  {
    var tag := "{" + name + ":" + n + "." + m + "}";
    BraceNotNumeric(tag);
    QtyInputIdOf(name, n, m);
    PostedInputName(n, m);
    var posted := "input_" + ReplaceAll(QtyInputId(tag), ".", "_");
    assert posted == "input_" + n + "_" + m by {
      PrefixThree("input_", n, "_", m);
    }
    assert HasValidQuantity(tag, env) == FloatPositive(PostParam(env, posted));
  }

  lemma PrefixThree(p: string, a: string, b: string, c: string)
    ensures p + (a + b + c) == p + a + b + c
  {
  }

  // ---- the subtotal formula ---------------------------------------------------------------------

  /** A group contributes when it is not the field being calculated and, when filtering, its quantity is valid. */
  predicate Keep(g: ProductGroup, current: FieldDef, filterTags: bool, env: Env) {
    g.product.id != current.id && (!filterTags || HasValidQuantity(QuantityTag(g, env), env))
  }

  /** The contributing groups, in order. */
  function Contributing(groups: seq<ProductGroup>, current: FieldDef, filterTags: bool, env: Env): (r: seq<ProductGroup>)
    ensures forall g :: g in r <==> g in groups && Keep(g, current, filterTags, env)
    ensures |r| <= |groups|
    decreases |groups|
  {
    if groups == [] then []
    else
      var last := groups[|groups| - 1];
      var rest := Contributing(groups[..|groups| - 1], current, filterTags, env);
      assert groups == groups[..|groups| - 1] + [last];
      if Keep(last, current, filterTags, env) then rest + [last] else rest
  }

  /** The terms of the groups, in order. */
  function Terms(groups: seq<ProductGroup>, env: Env): (ts: seq<string>)
    ensures |ts| == |groups| && forall k :: 0 <= k < |groups| ==> ts[k] == GroupTerm(groups[k], env)
  {
    seq(|groups|, k requires 0 <= k < |groups| => GroupTerm(groups[k], env))
  }

  /** One more group adds its term at the end. */
  lemma TermsSnoc(groups: seq<ProductGroup>, g: ProductGroup, env: Env)
    ensures Terms(groups + [g], env) == Terms(groups, env) + [GroupTerm(g, env)]
  {
    assert forall k :: 0 <= k < |groups| ==> (groups + [g])[k] == groups[k];
  }

  /** What `get_subtotal_merge_tag_string` returns: the sum of the contributing terms, shipping as `0`. */
  function SubtotalFormula(defs: seq<FieldDef>, current: FieldDef, filterTags: bool, env: Env): string {
    "( ( " + Implode(" + ", Terms(Contributing(ProductGroups(defs, defs), current, filterTags, env), env)) + " ) + 0 )"
  }

  /** One more group extends the terms by that group's term exactly when the group is kept. */
  lemma TermsStep(groups: seq<ProductGroup>, k: nat, current: FieldDef, filterTags: bool, env: Env)
    requires k < |groups|
    ensures Terms(Contributing(groups[..k + 1], current, filterTags, env), env) ==
      Terms(Contributing(groups[..k], current, filterTags, env), env) +
      (if Keep(groups[k], current, filterTags, env) then [GroupTerm(groups[k], env)] else [])
  {
    assert groups[..k + 1][..k] == groups[..k];
    var rest := Contributing(groups[..k], current, filterTags, env);
    if Keep(groups[k], current, filterTags, env) {
      TermsSnoc(rest, groups[k], env);
    }
  }

  /** The body of the loop over products: whether the group is kept and, if so, its term. */
  method ProductGroupTerm(g: ProductGroup, current: FieldDef, filterTags: bool, env: Env) returns (keep: bool, term: string)
    ensures keep == Keep(g, current, filterTags, env)
    ensures keep ==> term == GroupTerm(g, env)
  {
    term := "";
    if g.product.id == current.id {
      return false, term;
    }
    var productTags := env.mergeTagsOf(g.product);
    var quantityTag := "1";
    if IsSingleProduct(g.product) {
      if g.quantity.None? && !g.product.disableQuantity {
        quantityTag := NthTag(productTags, 2);
      }
      productTags := [NthTag(productTags, 1)];
    }
    if g.quantity.Some? {
      quantityTag := NthTag(env.mergeTagsOf(g.quantity.value), 0);
    }
    assert quantityTag == QuantityTag(g, env);
    if filterTags && !HasValidQuantity(quantityTag, env) {
      return false, term;
    }
    var optionTags := CollectOptionTags(g.options, env);
    keep := true;
    term := "( ( " + Implode(" + ", productTags + optionTags) + " ) * " + quantityTag + " )";
  }

  /** The terms of the contributing groups, gathered one product at a time. */
  method GroupTerms(products: seq<ProductGroup>, current: FieldDef, filterTags: bool, env: Env) returns (groups: seq<string>)
    ensures groups == Terms(Contributing(products, current, filterTags, env), env)
  {
    groups := [];
    for k := 0 to |products|
      invariant groups == Terms(Contributing(products[..k], current, filterTags, env), env)
    {
      groups := AddGroupTerm(products, k, groups, current, filterTags, env);
    }
    assert products[..|products|] == products;
  }

  /** One turn of the loop over products: the term of product `k` is added when the group is kept. */
  method AddGroupTerm(products: seq<ProductGroup>, k: nat, groups: seq<string>, current: FieldDef, filterTags: bool, env: Env)
    returns (groups2: seq<string>)
    requires k < |products| && groups == Terms(Contributing(products[..k], current, filterTags, env), env)
    ensures groups2 == Terms(Contributing(products[..k + 1], current, filterTags, env), env)
  {
    TermsStep(products, k, current, filterTags, env);
    var keep, term := ProductGroupTerm(products[k], current, filterTags, env);
    var added := if keep then [term] else [];
    assert added == if Keep(products[k], current, filterTags, env) then [GroupTerm(products[k], env)] else [];
    groups2 := groups + added;
  }

  /** `get_subtotal_merge_tag_string($form, $current_field, $filter_tags)`. */
  method SubtotalMergeTagString(form: Form, current: FieldDef, filterTags: bool, env: Env) returns (s: string)
    ensures s == SubtotalFormula(Defs(form.fields), current, filterTags, env)
  {
    var pricing := GetPricingFields(form);
    var groups := GroupTerms(pricing.products, current, filterTags, env);
    s := "( ( " + Implode(" + ", groups) + " ) + 0 )";
  }

  // ---- finding and rewriting subtotal fields ----------------------------------------------------

  /** `has_subtotal_merge_tag($field)`: the field has a formula that contains the tag. */
  predicate HasSubtotalMergeTag(c: Calc) {
    c.formula.Some? && Contains(c.formula.value, SubtotalTag)
  }

  /** The `strpos` test of `has_subtotal_merge_tag` on one field. */
  method FieldHasSubtotalMergeTag(c: Calc) returns (b: bool)
    ensures b <==> HasSubtotalMergeTag(c)
  {
    if c.formula.None? {
      return false;
    }
    ContainsFind(c.formula.value, SubtotalTag);
    var at := Find(c.formula.value, SubtotalTag, 0);
    b := at.Some?;
  }

  /** `has_subtotal_merge_tag($form)`: some field of the form has the tag. */
  method FormHasSubtotalMergeTag(form: Form) returns (b: bool)
    ensures b <==> exists k :: 0 <= k < |form.fields| && HasSubtotalMergeTag(form.fields[k].calculation)
  {
    for k := 0 to |form.fields|
      invariant forall j :: 0 <= j < k ==> !HasSubtotalMergeTag(form.fields[j].calculation)
    {
      b := FieldHasSubtotalMergeTag(form.fields[k].calculation);
      if b {
        return;
      }
    }
    b := false;
  }

  /** A field that has the tag or has already been rewritten. */
  predicate IsSubtotalField(f: Field) {
    HasSubtotalMergeTag(f.calculation) || f.calculation.hasSubtotal
  }

  /** The subtotal fields, in form order. */
  function SubtotalFields(fields: seq<Field>): (r: seq<Field>)
    ensures forall f :: f in r <==> f in fields && IsSubtotalField(f)
    ensures |r| <= |fields|
    decreases |fields|
  {
    if fields == [] then []
    else
      var last := fields[|fields| - 1];
      var rest := SubtotalFields(fields[..|fields| - 1]);
      assert fields == fields[..|fields| - 1] + [last];
      if IsSubtotalField(last) then rest + [last] else rest
  }

  /** The subtotal fields keep form order: those of `a` before those of `b`. */
  lemma {:induction false} SubtotalFieldsAppend(a: seq<Field>, b: seq<Field>)
    ensures SubtotalFields(a + b) == SubtotalFields(a) + SubtotalFields(b)
    decreases |b|
  {
    if b == [] {
      assert a + b == a;
    } else {
      assert (a + b)[..|a + b| - 1] == a + b[..|b| - 1];
      SubtotalFieldsAppend(a, b[..|b| - 1]);
    }
  }

  /** `get_subtotal_fields($form)`. */
  method GetSubtotalFields(form: Form) returns (fields: seq<Field>)
    ensures fields == SubtotalFields(form.fields)
  {
    fields := [];
    for k := 0 to |form.fields|
      invariant fields == SubtotalFields(form.fields[..k])
    {
      assert form.fields[..k + 1][..k] == form.fields[..k];
      var field := form.fields[k];
      var found := FieldHasSubtotalMergeTag(field.calculation);
      if found || field.calculation.hasSubtotal {
        fields := fields + [field];
      }
    }
    assert form.fields[..|form.fields|] == form.fields;
  }

  /** On pre-render, a saved original formula (when truthy) is put back before anything else. */
  function Restored(c: Calc, preRender: bool): (r: Calc)
    ensures r.orig == c.orig && r.hasSubtotal == c.hasSubtotal
    ensures !preRender ==> r == c
  {
    if preRender && c.orig.Some? && Truthy(c.orig.value) then c.(formula := c.orig) else c
  }

  /** A field's calculation after `maybe_replace_subtotal_merge_tag`, given the synthesised formula. */
  function ReplacedCalc(c: Calc, formula: string, preRender: bool): (r: Calc)
    ensures !HasSubtotalMergeTag(Restored(c, preRender)) ==> r == Restored(c, preRender)
    ensures HasSubtotalMergeTag(Restored(c, preRender)) ==>
      r.orig == Restored(c, preRender).formula && r.hasSubtotal &&
      r.formula == Some(ReplaceAll(Restored(c, preRender).formula.value, SubtotalTag, formula))
  {
    var c1 := Restored(c, preRender);
    if HasSubtotalMergeTag(c1) then Calc(Some(ReplaceAll(c1.formula.value, SubtotalTag, formula)), c1.formula, true)
    else c1
  }

  function ReplacedFields(fields: seq<Field>, defs: seq<FieldDef>, filterTags: bool, preRender: bool, env: Env): (r: seq<Field>)
    ensures |r| == |fields|
    ensures forall k :: 0 <= k < |fields| ==>
      r[k] == Field(fields[k].def, ReplacedCalc(fields[k].calculation, SubtotalFormula(defs, fields[k].def, filterTags, env), preRender))
  {
    seq(|fields|, k requires 0 <= k < |fields| =>
      Field(fields[k].def, ReplacedCalc(fields[k].calculation, SubtotalFormula(defs, fields[k].def, filterTags, env), preRender)))
  }

  /** What `maybe_replace_subtotal_merge_tag` returns. */
  function ReplacedForm(form: Form, filterTags: bool, preRender: bool, env: Env): Form {
    Form(form.id, ReplacedFields(form.fields, Defs(form.fields), filterTags, preRender, env))
  }

  /**
   * `maybe_replace_subtotal_merge_tag($form, $filter_tags)`: each field that has the tag gets its formula
   * saved and the tag replaced by the subtotal formula. `preRender` is whether the running filter is
   * `gform_pre_render`.
   */
  method MaybeReplaceSubtotalMergeTag(form: Form, filterTags: bool, preRender: bool, env: Env) returns (out: Form)
    ensures out == ReplacedForm(form, filterTags, preRender, env)
  {
    ghost var target := ReplacedFields(form.fields, Defs(form.fields), filterTags, preRender, env);
    var fields := form.fields;
    var k := 0;
    while k < |fields|
      invariant k <= |fields| == |form.fields|
      invariant forall j :: 0 <= j < k ==> fields[j] == target[j]
      invariant forall j :: k <= j < |fields| ==> fields[j] == form.fields[j]
    {
      var field := fields[k];
      assert Defs(fields) == Defs(form.fields);
      var cur := ReplaceFieldCalc(Form(form.id, fields), field, filterTags, preRender, env);
      fields := fields[k := Field(field.def, cur)];
      k := k + 1;
    }
    out := Form(form.id, fields);
  }

  /** The loop body of `maybe_replace_subtotal_merge_tag`: the new calculation of one field of the form. */
  method ReplaceFieldCalc(form: Form, field: Field, filterTags: bool, preRender: bool, env: Env) returns (cur: Calc)
    ensures cur == ReplacedCalc(field.calculation, SubtotalFormula(Defs(form.fields), field.def, filterTags, env), preRender)
  {
    cur := field.calculation;
    if preRender && cur.orig.Some? && Truthy(cur.orig.value) {
      cur := cur.(formula := cur.orig);
    }
    var found := FieldHasSubtotalMergeTag(cur);
    if found {
      var formula := SubtotalMergeTagString(form, field.def, filterTags, env);
      cur := Calc(Some(ReplaceAll(cur.formula.value, SubtotalTag, formula)), cur.formula, true);
    }
  }

  /** `maybe_replace_subtotal_merge_tag_submission($form)`: the same rewrite, filtering on valid quantities. */
  method MaybeReplaceSubtotalMergeTagSubmission(form: Form, env: Env) returns (out: Form)
    ensures out == ReplacedForm(form, true, false, env)
  {
    out := MaybeReplaceSubtotalMergeTag(form, true, false, env);
  }

  // ---- properties of the rewrite ----------------------------------------------------------------

  /** The rewrite keeps the form's id and every field's description; only calculations change. */
  lemma ReplacedFormShape(form: Form, filterTags: bool, preRender: bool, env: Env)
    ensures ReplacedForm(form, filterTags, preRender, env).id == form.id
    ensures Defs(ReplacedForm(form, filterTags, preRender, env).fields) == Defs(form.fields)
  {
    var out := ReplacedForm(form, filterTags, preRender, env);
    assert forall k :: 0 <= k < |form.fields| ==> Defs(out.fields)[k] == Defs(form.fields)[k];
  }

  /** A formula that contains the tag is a truthy string, so a saved formula is always restored. */
  lemma TaggedFormulaTruthy(x: string)
    requires Contains(x, SubtotalTag)
    ensures Truthy(x)
  {
    var k: nat :| k <= |x| && OccursAt(x, SubtotalTag, k);
    assert |x| >= |SubtotalTag|;
  }

  /** Rewriting one calculation twice on pre-render is rewriting it once. */
  lemma ReplacedCalcTwice(c: Calc, formula: string)
    ensures ReplacedCalc(ReplacedCalc(c, formula, true), formula, true) == ReplacedCalc(c, formula, true)
  {
    var c1 := Restored(c, true);
    if HasSubtotalMergeTag(c1) {
      TaggedFormulaTruthy(c1.formula.value);
    } else {
      assert Restored(c1, true) == c1;
    }
  }

  /** A second pre-render rewrite of an already rewritten form changes nothing. */
  lemma {:induction false} PreRenderIdempotent(form: Form, filterTags: bool, env: Env)
    ensures ReplacedForm(ReplacedForm(form, filterTags, true, env), filterTags, true, env) == ReplacedForm(form, filterTags, true, env)
  {
    var once := ReplacedForm(form, filterTags, true, env);
    var twice := ReplacedForm(once, filterTags, true, env);
    ReplacedFormShape(form, filterTags, true, env);
    forall k | 0 <= k < |form.fields|
      ensures twice.fields[k] == once.fields[k]
    {
      ReplacedCalcTwice(form.fields[k].calculation, SubtotalFormula(Defs(form.fields), form.fields[k].def, filterTags, env));
    }
  }

  // ---- an example -------------------------------------------------------------------------------

  /** Product 1, a single product: the field being calculated. */
  const ExampleA := FieldDef(1, "product", "singleproduct", None, "", None, false)
  /** Product 2, a drop-down. */
  const ExampleB := FieldDef(2, "product", "select", None, "", None, false)
  /** Quantity field 3, belonging to product 2. */
  const ExampleQ := FieldDef(3, "quantity", "number", Some(2), "", None, false)

  lemma ExampleGroups()
    ensures ProductGroups([ExampleA, ExampleB, ExampleQ], [ExampleA, ExampleB, ExampleQ]) ==
      [GroupOf(ExampleA, [ExampleA, ExampleB, ExampleQ]), ProductGroup(ExampleB, [], Some(ExampleQ))]
  {
    ExampleGroupOfB();
    ExampleGroupsInOrder();
  }

  lemma ExampleGroupOfB()
    ensures GroupOf(ExampleB, [ExampleA, ExampleB, ExampleQ]) == ProductGroup(ExampleB, [], Some(ExampleQ))
  {
    var defs := [ExampleA, ExampleB, ExampleQ];
    assert defs[..2] == [ExampleA, ExampleB] && [ExampleA, ExampleB][..1] == [ExampleA] && [ExampleA][..0] == [];
    assert ExampleA.productField != Some(2) && ExampleB.productField != Some(2);
    assert FieldsOfProduct([ExampleA], "option", 2) == [];
    assert FieldsOfProduct([ExampleA], "quantity", 2) == [];
    assert FieldsOfProduct([ExampleA, ExampleB], "option", 2) == [];
    assert FieldsOfProduct(defs, "option", 2) == [];
    assert FieldsOfProduct([ExampleA, ExampleB], "quantity", 2) == [];
    assert FieldsOfProduct(defs, "quantity", 2) == [ExampleQ];
  }

  lemma ExampleGroupsInOrder()
    ensures var defs := [ExampleA, ExampleB, ExampleQ];
      ProductGroups(defs, defs) == [GroupOf(ExampleA, defs), GroupOf(ExampleB, defs)]
  {
    var defs := [ExampleA, ExampleB, ExampleQ];
    assert defs[..2] == [ExampleA, ExampleB] && [ExampleA, ExampleB][..1] == [ExampleA] && [ExampleA][..0] == [];
    assert ProductGroups([ExampleA], defs) == [GroupOf(ExampleA, defs)];
    assert ProductGroups([ExampleA, ExampleB], defs) == [GroupOf(ExampleA, defs), GroupOf(ExampleB, defs)];
  }

  lemma ExampleTerm(env: Env)
    requires env.mergeTagsOf(ExampleB) == ["{B:1}"]
    requires env.mergeTagsOf(ExampleQ) == ["{B:3}"]
    ensures GroupTerm(ProductGroup(ExampleB, [], Some(ExampleQ)), env) == "( ( {B:1} ) * {B:3} )"
  {
    var gb := ProductGroup(ExampleB, [], Some(ExampleQ));
    assert InputType(ExampleB) == "select";
    assert ProductTags(gb, env) == ["{B:1}"];
    assert QuantityTag(gb, env) == "{B:3}";
    assert Implode(" + ", ["{B:1}"] + OptionTags([], env)) == "{B:1}";
  }

  /** Without the quantity filter, only product 2 contributes to the formula of field 1. */
  lemma ExampleContributing(env: Env)
    ensures Contributing(ProductGroups([ExampleA, ExampleB, ExampleQ], [ExampleA, ExampleB, ExampleQ]), ExampleA, false, env)
      == [ProductGroup(ExampleB, [], Some(ExampleQ))]
  {
    var defs := [ExampleA, ExampleB, ExampleQ];
    ExampleGroups();
    var ga := GroupOf(ExampleA, defs);
    var gb := ProductGroup(ExampleB, [], Some(ExampleQ));
    assert [ga, gb][..1] == [ga];
    assert Contributing([ga], ExampleA, false, env) == [];
  }

  /**
   * Product 1 is being calculated; product 2 (tag `{B:1}`) has quantity field 3 (tag `{B:3}`).
   * The formula of field 1 is the single term of product 2.
   */
  lemma TwoProductExample(env: Env)
    requires env.mergeTagsOf(ExampleB) == ["{B:1}"]
    requires env.mergeTagsOf(ExampleQ) == ["{B:3}"]
    ensures SubtotalFormula([ExampleA, ExampleB, ExampleQ], ExampleA, false, env) == "( ( ( ( {B:1} ) * {B:3} ) ) + 0 )"
  {
    ExampleContributing(env);
    ExampleTerm(env);
    var t := "( ( {B:1} ) * {B:3} )";
    TermsSnoc([], ProductGroup(ExampleB, [], Some(ExampleQ)), env);
    assert [] + [ProductGroup(ExampleB, [], Some(ExampleQ))] == [ProductGroup(ExampleB, [], Some(ExampleQ))];
    assert Terms([ProductGroup(ExampleB, [], Some(ExampleQ))], env) == [t];
    assert Implode(" + ", [t]) == t;
    FormulaOfTerms([ExampleA, ExampleB, ExampleQ], ExampleA, false, env, [t]);
    ExampleText(t);
  }

  lemma FormulaOfTerms(defs: seq<FieldDef>, current: FieldDef, filterTags: bool, env: Env, ts: seq<string>)
    requires Terms(Contributing(ProductGroups(defs, defs), current, filterTags, env), env) == ts
    ensures SubtotalFormula(defs, current, filterTags, env) == "( ( " + Implode(" + ", ts) + " ) + 0 )"
  {
  }

  lemma ExampleText(t: string)
    requires t == "( ( {B:1} ) * {B:3} )"
    ensures "( ( " + t + " ) + 0 )" == "( ( ( ( {B:1} ) * {B:3} ) ) + 0 )"
  {
  }
}
