/**
 * Merge tags in post content: a bare `{Field Label}` is rewritten to the `{Field Label:id}` tag Gravity
 * Forms understands, `{encrypted_entry_id}` is replaced by the encrypted id of an entry, and the entry
 * whose values fill the content is found through the `eid` query parameter (possibly encrypted) or
 * the post's `_gform-entry-id` meta, then cached for the rest of the request.
 */
module PostContentMergeTags {
  import opened Options
  import opened Strings
  import opened Php
  import opened Scanner
  import opened Forms
  import opened Host
  import opened EntryCache

  // ---- field-label tags -------------------------------------------------------------------------

  /** The first input of `f` whose label is `name`, as its id. */
  function FirstLabelledInput(f: FieldDef, ins: seq<Input>, name: string, env: Env): (r: Option<string>)
    ensures r.Some? ==>
      exists k :: 0 <= k < |ins| && ins[k].id == r.value && env.labelOf(f, Some(ins[k].id)) == name &&
                  forall j :: 0 <= j < k ==> env.labelOf(f, Some(ins[j].id)) != name
    ensures r.None? ==> forall k :: 0 <= k < |ins| ==> env.labelOf(f, Some(ins[k].id)) != name
    decreases |ins|
  {
    if ins == [] then None
    else if env.labelOf(f, Some(ins[0].id)) == name then Some(ins[0].id)
    else
      var r := FirstLabelledInput(f, ins[1..], name, env);
      assert forall j :: 0 < j < |ins| ==> ins[j] == ins[1..][j - 1];
      r
  }

  /**
   * Whether field `f` answers to `name` (by admin label, by its label, or by an input's label) and
   * the input id a tag for it would use: the labelled input's, or the field's own id when the field
   * has no inputs array.
   */
  function FieldAnswer(f: FieldDef, name: string, env: Env): (a: (bool, string))
    ensures f.inputs.None? ==> a == (f.adminLabel == name || env.labelOf(f, None) == name, NatToString(f.id))
    ensures f.inputs.Some? && FirstLabelledInput(f, f.inputs.value, name, env).Some? ==>
      a == (true, FirstLabelledInput(f, f.inputs.value, name, env).value)
    ensures f.inputs.Some? && FirstLabelledInput(f, f.inputs.value, name, env).None? ==> a == (f.adminLabel == name, "")
  {
    var byAdmin := f.adminLabel == name;
    match f.inputs
    case None => (byAdmin || env.labelOf(f, None) == name, NatToString(f.id))
    case Some(ins) =>
      match FirstLabelledInput(f, ins, name, env)
      case Some(id) => (true, id)
      case None => (byAdmin, "")
  }

  /** The index of the first field, in form order, that answers to `name`. */
  function FirstAnswering(fields: seq<FieldDef>, name: string, env: Env): (r: Option<nat>)
    ensures r.Some? ==> r.value < |fields| && FieldAnswer(fields[r.value], name, env).0
    ensures r.Some? ==> forall j :: 0 <= j < r.value ==> !FieldAnswer(fields[j], name, env).0
    ensures r.None? ==> forall j :: 0 <= j < |fields| ==> !FieldAnswer(fields[j], name, env).0
    decreases |fields|
  {
    if fields == [] then None
    else if FieldAnswer(fields[0], name, env).0 then Some(0)
    else
      match FirstAnswering(fields[1..], name, env)
      case None => None
      case Some(k) => Some(k + 1)
  }

  /** The input id a bare `{name}` is rewritten with: the first answering field's, unless that is `""`. */
  function InputIdFor(fields: seq<FieldDef>, name: string, env: Env): Option<string> {
    match FirstAnswering(fields, name, env)
    case None => None
    case Some(k) => var id := FieldAnswer(fields[k], name, env).1; if id != "" then Some(id) else None
  }

  /** The loop over a field's inputs: the first whose label matches. */
  method FindLabelledInput(f: FieldDef, ins: seq<Input>, name: string, env: Env) returns (found: Option<string>)
    ensures found == FirstLabelledInput(f, ins, name, env)
  {
    var j := 0;
    while j < |ins|
      invariant j <= |ins|
      invariant FirstLabelledInput(f, ins[j..], name, env) == FirstLabelledInput(f, ins, name, env)
    {
      assert ins[j..][1..] == ins[j + 1..];
      if env.labelOf(f, Some(ins[j].id)) == name {
        return Some(ins[j].id);
      }
      j := j + 1;
    }
    found := None;
  }

  /** The loop over the form's fields: the input id of the first field that answers to `name`. */
  method FindInputId(fields: seq<FieldDef>, name: string, env: Env) returns (id: Option<string>)
    ensures id == InputIdFor(fields, name, env)
  {
    var k := 0;
    while k < |fields|
      invariant k <= |fields|
      invariant forall j :: 0 <= j < k ==> !FieldAnswer(fields[j], name, env).0
    {
      var f := fields[k];
      var byAdmin := f.adminLabel == name;
      var byLabel := false;
      var inputId := "";
      if f.inputs.Some? {
        var found := FindLabelledInput(f, f.inputs.value, name, env);
        if found.Some? {
          byLabel := true;
          inputId := found.value;
        }
      } else {
        byLabel := env.labelOf(f, None) == name;
        inputId := NatToString(f.id);
      }
      assert FieldAnswer(f, name, env) == (byAdmin || byLabel, inputId);
      if byAdmin || byLabel {
        assert FirstAnswering(fields, name, env) == Some(k);
        return if inputId != "" then Some(inputId) else None;
      }
      k := k + 1;
    }
    id := None;
  }

  /** The replacement of one bare-label match: `{name:id}`, or the match itself when there is none. */
  function LabelPair(text: string, sp: Span, fields: seq<FieldDef>, env: Env): (string, string)
    requires MatchAt(Label, text, sp.start) == Some(sp.end)
  {
    var search := text[sp.start..sp.end];
    var name := text[sp.start + 1..sp.end - 1];
    match InputIdFor(fields, name, env)
    case Some(id) => (search, "{" + name + ":" + id + "}")
    case None => (search, search)
  }

  function LabelPairs(text: string, fields: seq<FieldDef>, env: Env): (ps: seq<(string, string)>)
    ensures |ps| == |Scan(Label, text, 0)|
  {
    var spans := Scan(Label, text, 0);
    seq(|spans|, k requires 0 <= k < |spans| => LabelPair(text, spans[k], fields, env))
  }

  /** Every bare `{name}` match, in order, rewritten in the whole text. */
  function FieldLabelsReplaced(text: string, fields: seq<FieldDef>, env: Env): string {
    ReplaceEach(text, LabelPairs(text, fields, env))
  }

  /** Replacing a text by itself changes nothing. */
  lemma ReplaceSelf(s: string, p: string)
    requires |p| > 0
    ensures ReplaceAll(s, p, p) == s
  {
    ExplodeImplode(s, p);
  }

  /** `replace_field_label_merge_tags($text, $form)`. */
  method ReplaceFieldLabelMergeTags(text: string, form: Form, env: Env) returns (r: string)
    ensures r == FieldLabelsReplaced(text, Defs(form.fields), env)
  {
    var spans := Scan(Label, text, 0);
    if |spans| == 0 {
      return text;
    }
    var fields := Defs(form.fields);
    ghost var pairs := LabelPairs(text, fields, env);
    r := text;
    for k := 0 to |spans|
      invariant r == ReplaceEach(text, pairs[..k])
    {
      ReplaceEachPrefix(text, pairs, k);
      assert pairs[k] == LabelPair(text, spans[k], fields, env);
      r := RewriteLabelMatch(r, text, spans[k], fields, env);
    }
    assert pairs[..|spans|] == pairs;
  }

  /** The body of the outer `foreach`: one bare-label match rewritten, when a field answers to it. */
  method RewriteLabelMatch(r: string, text: string, sp: Span, fields: seq<FieldDef>, env: Env) returns (r2: string)
    requires MatchAt(Label, text, sp.start) == Some(sp.end)
    ensures r2 == ReplaceAll(r, LabelPair(text, sp, fields, env).0, LabelPair(text, sp, fields, env).1)
  {
    assert LabelAt(text, sp.start) == Some(sp.end - 1);
    var search := text[sp.start..sp.end];
    var name := text[sp.start + 1..sp.end - 1];
    var id := FindInputId(fields, name, env);
    LabelPairOf(text, sp, fields, env, id);
    if id.Some? {
      r2 := ReplaceAll(r, search, "{" + name + ":" + id.value + "}");
    } else {
      ReplaceSelf(r, search);
      r2 := r;
    }
  }

  lemma LabelPairOf(text: string, sp: Span, fields: seq<FieldDef>, env: Env, id: Option<string>)
    requires MatchAt(Label, text, sp.start) == Some(sp.end)
    requires id == InputIdFor(fields, text[sp.start + 1..sp.end - 1], env)
    ensures LabelPair(text, sp, fields, env) ==
      (text[sp.start..sp.end],
       if id.Some? then "{" + text[sp.start + 1..sp.end - 1] + ":" + id.value + "}" else text[sp.start..sp.end])
  {
  }

  /** A text with no bare `{name}` is returned unchanged. */
  lemma NoLabelTag(text: string, fields: seq<FieldDef>, env: Env)
    requires forall j :: LabelAt(text, j).None?
    ensures FieldLabelsReplaced(text, fields, env) == text
  {
    forall j ensures MatchAt(Label, text, j).None? {
      assert LabelAt(text, j).None?;
    }
    ScanEmpty(Label, text, 0);
  }

  /** A text that is exactly `{name}` becomes `{name:id}` for the first answering field, or stays as it is. */
  lemma WholeLabelTag(name: string, fields: seq<FieldDef>, env: Env)
    requires |name| >= 1 && ':' !in name && '}' !in name
    ensures FieldLabelsReplaced("{" + name + "}", fields, env) ==
      match InputIdFor(fields, name, env)
      case Some(id) => "{" + name + ":" + id + "}"
      case None => "{" + name + "}"
  {
    var t := "{" + name + "}";
    forall k | 1 <= k < |t| - 1 ensures t[k] != ':' && t[k] != '}' {
      assert t[k] == name[k - 1];
    }
    LabelCloseAt(t, 0, 1, |t| - 1);
    ScanWhole(Label, t);
    assert t[0..|t|] == t && t[1..|t| - 1] == name;
    var pair := LabelPair(t, Span(0, |t|), fields, env);
    assert LabelPairs(t, fields, env) == [pair];
    ReplaceEachSingle(t, pair);
    ReplaceWhole(t, pair.1);
  }

  /** A field without inputs whose label is `name`, first in the form, gives `{name}` its own id. */
  lemma LabelledFieldId(f: FieldDef, rest: seq<FieldDef>, name: string, env: Env)
    requires f.inputs.None? && env.labelOf(f, None) == name
    ensures InputIdFor([f] + rest, name, env) == Some(NatToString(f.id))
  {
    assert ([f] + rest)[0] == f;
  }

  // ---- the plugin object ------------------------------------------------------------------------

  /** The `auto_append_eid` setting: `true`, `false`, a list of form ids, or any other value. */
  datatype AutoAppend = Flag(on: bool) | FormIds(ids: seq<nat>) | OtherSetting

  /** `{encrypted_entry_id}`. */
  const EncryptedEntryIdTag := "{encrypted_entry_id}"

  class PostContentMergeTags {
    /** `$this->_args['auto_append_eid']`. */
    const autoAppendEid: AutoAppend
    /** `$this->_args['encrypt_eid']`, as a truth value. */
    const encryptEid: bool
    /** The class's static `$_entry`. */
    const cache: EntryCache

    /** The settings after `wp_parse_args`: `auto_append_eid` defaults to `true`, `encrypt_eid` to `false`. */
    constructor(autoAppendEid: Option<AutoAppend>, encryptEid: Option<bool>, cache: EntryCache)
      ensures this.autoAppendEid == autoAppendEid.GetOr(Flag(true))
      ensures this.encryptEid == encryptEid.GetOr(false)
      ensures this.cache == cache
    {
      this.autoAppendEid := autoAppendEid.GetOr(Flag(true));
      this.encryptEid := encryptEid.GetOr(false);
      this.cache := cache;
    }

    /** `is_auto_eid_enabled($form)`: the setting is `true`, or a list that holds the form's id. */
    predicate IsAutoEidEnabled(formId: nat)
      ensures IsAutoEidEnabled(formId) <==> autoAppendEid == Flag(true) || (autoAppendEid.FormIds? && formId in autoAppendEid.ids)
    {
      match autoAppendEid
      case Flag(on) => on
      case FormIds(ids) => formId in ids
      case OtherSetting => false
    }

    /** `prepare_eid($entry_id, $force_encrypt)`: encrypted (and URL-encoded) when asked to and possible. */
    function PrepareEid(entryId: string, forceEncrypt: bool, env: Env): (r: string)
      ensures !(forceEncrypt || encryptEid) || env.encrypt.None? ==> r == entryId
      ensures (forceEncrypt || encryptEid) && env.encrypt.Some? ==> r == env.encrypt.value(entryId)
    {
      if (forceEncrypt || encryptEid) && env.encrypt.Some? then env.encrypt.value(entryId) else entryId
    }

    /**
     * `maybe_decrypt_entry_id($entry_id)`: no id for a falsy one; a positive number as it is when
     * encryption is off; otherwise the integer value of the decrypted id.
     */
    function MaybeDecryptEntryId(entryId: string, env: Env): (r: Option<string>)
      ensures !Truthy(entryId) <==> r.None?
      ensures Truthy(entryId) && !encryptEid && IsNumeric(entryId) && IntVal(entryId) > 0 ==> r == Some(entryId)
    {
      if !Truthy(entryId) then None
      else if !encryptEid && IsNumeric(entryId) && IntVal(entryId) > 0 then Some(entryId)
      else
        var decrypted := if env.decrypt.Some? then env.decrypt.value(entryId) else entryId;
        Some(IntToString(IntVal(decrypted)))
    }

    /** `get_entry_id()`: the `eid` parameter (decrypted), else the current post's `_gform-entry-id` meta. */
    function GetEntryId(env: Env): (r: Option<string>)
      ensures Truthy(Query(env, "eid")) ==> r == MaybeDecryptEntryId(Query(env, "eid"), env)
      ensures !Truthy(Query(env, "eid")) ==> r == PostEntryId(env)
      ensures !Truthy(Query(env, "eid")) && env.currentPost.None? ==> r.None?
      ensures !Truthy(Query(env, "eid")) && r.Some? ==>
        env.currentPost.Some? && r.value == MetaText(PostMeta(env, env.currentPost.value, "_gform-entry-id")) && Truthy(r.value)
    {
      var eid := Query(env, "eid");
      if Truthy(eid) then MaybeDecryptEntryId(eid, env) else PostEntryId(env)
    }

    /** `get_entry()`: the cached entry, or the entry found now, which is then cached. */
    method GetEntry(env: Env) returns (r: Option<Entry>)
      modifies cache
      ensures old(cache.entry).Some? ==> r == old(cache.entry) && cache.entry == old(cache.entry)
      ensures old(cache.entry).None? ==> r == FetchedEntry(GetEntryId(env), env) && cache.entry == r
    {
      r := cache.Lookup(GetEntryId(env), env);
    }

    /** `replace_merge_tags($post_content)`: label tags, then every Gravity Forms merge tag, for the entry. */
    method ReplaceMergeTags(content: string, env: Env) returns (r: string)
      modifies cache
      ensures old(cache.entry).None? && FetchedEntry(GetEntryId(env), env).None? ==> r == content
      ensures cache.entry.Some? ==>
        var entry := cache.entry.value;
        var form := env.formMeta(EntryField(entry, "form_id"));
        r == env.replaceVariables(FieldLabelsReplaced(content, Defs(form.fields), env), form, entry)
    {
      var entry := GetEntry(env);
      if entry.None? {
        return content;
      }
      var form := env.formMeta(EntryField(entry.value, "form_id"));
      r := ReplaceFieldLabelMergeTags(content, form, env);
      r := env.replaceVariables(r, form, entry.value);
    }

    /**
     * `replace_encrypt_entry_id_merge_tag($text, $form, $entry)`: every `{encrypted_entry_id}` replaced
     * by the entry's id, encrypted when it is truthy.
     */
    function EncryptedEntryIdReplaced(text: string, entry: Entry, env: Env): (r: string)
      ensures !Contains(text, EncryptedEntryIdTag) ==> r == text
      ensures var id := EntryField(entry, "id");
        var pieces := Explode(text, EncryptedEntryIdTag);
        Implode(EncryptedEntryIdTag, pieces) == text &&
        (forall i :: 0 <= i < |pieces| ==> !Contains(pieces[i], EncryptedEntryIdTag)) &&
        r == Implode(if Truthy(id) then PrepareEid(id, true, env) else id, pieces)
    {
      var id := EntryField(entry, "id");
      var value := if Truthy(id) then PrepareEid(id, true, env) else id;
      ReplaceAllPieces(text, EncryptedEntryIdTag, value);
      if !Contains(text, EncryptedEntryIdTag) then text
      else ReplaceAll(text, EncryptedEntryIdTag, value)
    }

    /** The tag alone becomes the encrypted id of an entry that has one. */
    lemma EncryptedTagAlone(entry: Entry, env: Env)
      requires Truthy(EntryField(entry, "id"))
      ensures EncryptedEntryIdReplaced(EncryptedEntryIdTag, entry, env) == PrepareEid(EntryField(entry, "id"), true, env)
    {
      assert OccursAt(EncryptedEntryIdTag, EncryptedEntryIdTag, 0);
      ReplaceWhole(EncryptedEntryIdTag, PrepareEid(EntryField(entry, "id"), true, env));
    }

    /** With encryption off, a printed positive entry id passes through `maybe_decrypt_entry_id` unchanged. */
    lemma PlainIdKept(n: nat, env: Env)
      requires !encryptEid && n > 0
      ensures MaybeDecryptEntryId(NatToString(n), env) == Some(NatToString(n))
    {
      NatStringNumeric(n);
      IntValOfNat(n);
    }

    /** An id in exponent notation below one is not positive, so it is read as entry 0 rather than passed through. */
    lemma ExponentIdNotKept(env: Env)
      requires env.decrypt.None?
      ensures MaybeDecryptEntryId("5e-1", env) == Some("0")
    {
      IntValNegativeExponent();
      NotPositiveIdRead("5e-1", env);
      IntValOfNat(0);
    }

    /** Without a decryption hook, an id that is not a positive number is read as its integer value. */
    lemma NotPositiveIdRead(entryId: string, env: Env)
      requires Truthy(entryId) && IntVal(entryId) <= 0 && env.decrypt.None?
      ensures MaybeDecryptEntryId(entryId, env) == Some(IntToString(IntVal(entryId)))
    {
    }

    /** An encrypted id that decrypts to a printed entry id reads back as that id. */
    lemma EncryptedIdRead(token: string, n: nat, env: Env)
      requires Truthy(token) && encryptEid
      requires env.decrypt.Some? && env.decrypt.value(token) == NatToString(n)
      ensures MaybeDecryptEntryId(token, env) == Some(NatToString(n))
    {
      IntValOfNat(n);
      assert IntToString(n) == NatToString(n);
    }
  }
}
