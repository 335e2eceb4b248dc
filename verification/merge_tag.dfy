/**
 * One custom merge tag: its sanitised text, registered with the factory under a group, and the value
 * or callback that replaces it in text Gravity Forms processes.
 */
module MergeTag {
  import opened Options
  import opened Strings
  import opened Php
  import opened Forms
  import opened Host
  import opened EntryCache
  import opened MergeTagFactory

  /** `$value_or_callback`, split by `is_callable`. */
  datatype ValueOrCallback = Callable(f: (Form, Entry) -> string) | Plain(v: string)

  /** The label a group created for a merge tag gets: `Custom` unless one is given. */
  function TagGroupLabel(groupLabel: string): string {
    if groupLabel == "" then "Custom" else groupLabel
  }

  /**
   * The registry after constructing a merge tag: the group is created (if new) and the sanitised tag,
   * sanitised once more by `add_merge_tag`, is added to it.
   */
  function Registered(r: Registry, sanitizeClass: string -> string, slug: string, tag: string, tagLabel: string, groupLabel: string): Registry {
    var mergeTag := SanitizeMergeTag(sanitizeClass, tag);
    AddTag(CreateGroup(r, slug, TagGroupLabel(groupLabel)).0, slug, SanitizeMergeTag(sanitizeClass, mergeTag), tagLabel, "")
  }

  /**
   * With an idempotent `sanitize_html_class`, the constructed merge tag is registered under its own
   * text in its group, which has a label, and the registry stays consistent.
   */
  lemma RegisteredTag(r: Registry, sanitizeClass: string -> string, slug: string, tag: string, tagLabel: string, groupLabel: string)
    requires forall x :: sanitizeClass(sanitizeClass(x)) == sanitizeClass(x)
    requires forall x, i :: 0 <= i < |sanitizeClass(x)| ==> sanitizeClass(x)[i] !in TrimChars
    requires Consistent(r)
    ensures var r2 := Registered(r, sanitizeClass, slug, tag, tagLabel, groupLabel);
      var mergeTag := SanitizeMergeTag(sanitizeClass, tag);
      Consistent(r2) && slug in r2.groups && slug in r2.mergeTags &&
      mergeTag in r2.mergeTags[slug] && r2.mergeTags[slug][mergeTag] == TagInfo(mergeTag, tagLabel)
    ensures !Has(r, slug) ==> Registered(r, sanitizeClass, slug, tag, tagLabel, groupLabel).groups[slug] == TagGroupLabel(groupLabel)
  {
    SanitizeIdempotent(sanitizeClass, tag);
    var r1 := CreateGroup(r, slug, TagGroupLabel(groupLabel)).0;
    OperationsKeepConsistent(r, slug, "", "", TagGroupLabel(groupLabel));
    AddTagLabelled(r1, slug, SanitizeMergeTag(sanitizeClass, tag), tagLabel, "");
    AddTagEffect(r1, slug, SanitizeMergeTag(sanitizeClass, tag), tagLabel, "");
  }

  /**
   * The registry after constructing a merge tag as the code is written: the group is created under its
   * slug, but `add_merge_tag` is handed the raw `group`.
   */
  function RegisteredAsWritten(r: Registry, sanitizeClass: string -> string, group: string, slug: string, tag: string, tagLabel: string, groupLabel: string): Registry {
    var mergeTag := SanitizeMergeTag(sanitizeClass, tag);
    AddTagAsWritten(CreateGroup(r, slug, TagGroupLabel(groupLabel)).0, group, slug, SanitizeMergeTag(sanitizeClass, mergeTag), tagLabel, "")
  }

  /**
   * As written, a group whose name differs from its slug ends up twice: the labelled slug, and the
   * raw name holding the tag with no label, so the registry is no longer consistent.
   */
  lemma RegisteredAsWrittenUnlabelled(r: Registry, sanitizeClass: string -> string, group: string, slug: string, tag: string, tagLabel: string, groupLabel: string)
    requires Consistent(r) && group != slug && !Has(r, group)
    ensures var r2 := RegisteredAsWritten(r, sanitizeClass, group, slug, tag, tagLabel, groupLabel);
      var mergeTag := SanitizeMergeTag(sanitizeClass, tag);
      slug in r2.groups && group !in r2.groups && group in r2.mergeTags &&
      SanitizeMergeTag(sanitizeClass, mergeTag) in r2.mergeTags[group] && !Consistent(r2)
  {
    var r2 := RegisteredAsWritten(r, sanitizeClass, group, slug, tag, tagLabel, groupLabel);
    assert group in r2.mergeTags.Keys && group !in r2.groups.Keys;
  }

  /** `gform_replace_merge_tags` for a tag and its value: text without the tag is returned unchanged. */
  function TagReplaced(text: string, mergeTag: string, value: string): (r: string)
    ensures !Contains(text, mergeTag) ==> r == text
  {
    if !Contains(text, mergeTag) then text else ReplaceAll(text, mergeTag, value)
  }

  /**
   * Every occurrence is replaced: the text splits at each occurrence of the tag into pieces free of
   * it, and the result joins those pieces with the value.
   */
  lemma TagReplacedEvery(text: string, mergeTag: string, value: string)
    ensures |mergeTag| > 0 ==>
      var pieces := Explode(text, mergeTag);
      Implode(mergeTag, pieces) == text && (forall i :: 0 <= i < |pieces| ==> !Contains(pieces[i], mergeTag)) &&
      TagReplaced(text, mergeTag, value) == Implode(value, pieces)
  {
    if |mergeTag| > 0 {
      ReplaceAllPieces(text, mergeTag, value);
    }
  }

  /** Text that is just the merge tag becomes its value. */
  lemma TagAloneIsValue(mergeTag: string, value: string)
    requires |mergeTag| > 0
    ensures TagReplaced(mergeTag, mergeTag, value) == value
  {
    assert OccursAt(mergeTag, mergeTag, 0);
    ReplaceWhole(mergeTag, value);
  }

  /** A sanitised merge tag holds exactly one opening brace. */
  lemma SanitizedOneBrace(sanitizeClass: string -> string, tag: string)
    requires forall x, i :: 0 <= i < |sanitizeClass(x)| ==> sanitizeClass(x)[i] !in TrimChars
    ensures CountChar('{', SanitizeMergeTag(sanitizeClass, tag)) == 1
  {
    var inner := sanitizeClass(Trim(tag, TrimChars));
    assert '{' !in inner by {
      forall i | 0 <= i < |inner| ensures inner[i] != '{' {
        assert inner[i] !in TrimChars;
      }
    }
    assert multiset("{" + inner + "}") == multiset("{") + multiset(inner) + multiset("}");
  }

  /**
   * Replacing a sanitised merge tag by a value free of `{` makes progress: text holding the tag loses
   * at least one opening brace, and no text gains one.
   */
  lemma TagReplacedConsumesTag(sanitizeClass: string -> string, tag: string, text: string, value: string)
    requires forall x, i :: 0 <= i < |sanitizeClass(x)| ==> sanitizeClass(x)[i] !in TrimChars
    requires CountChar('{', value) == 0
    ensures var mergeTag := SanitizeMergeTag(sanitizeClass, tag);
      CountChar('{', TagReplaced(text, mergeTag, value)) <= CountChar('{', text) &&
      (Contains(text, mergeTag) ==> CountChar('{', TagReplaced(text, mergeTag, value)) < CountChar('{', text))
  {
    var mergeTag := SanitizeMergeTag(sanitizeClass, tag);
    SanitizedOneBrace(sanitizeClass, tag);
    ReplaceAllCount('{', text, mergeTag, value);
  }

  /** `get_entry_id()`: the `eid` query parameter as given, else the current post's entry-id meta. */
  function GetEntryId(env: Env): (r: Option<string>)
    ensures r.Some? ==> Truthy(r.value)
    ensures Truthy(Query(env, "eid")) ==> r == Some(Query(env, "eid"))
    ensures !Truthy(Query(env, "eid")) ==> r == PostEntryId(env)
  {
    var eid := Query(env, "eid");
    if Truthy(eid) then Some(eid) else PostEntryId(env)
  }

  class MergeTag {
    /** `$merge_tag`, sanitised. */
    const mergeTag: string
    /** `$callback` or `$value`. */
    const source: ValueOrCallback
    /** `MergeTagFactory::get_instance()`. */
    const factory: MergeTagFactory
    /** The class-wide `self::$_entry`. */
    const cache: EntryCache

    /**
     * `new MergeTag($merge_tag, $merge_tag_label, $value_or_callback, $merge_group, $merge_group_label)`:
     * sanitises the tag, creates its group and registers the tag with the factory.
     */
    constructor(factory: MergeTagFactory, tag: string, tagLabel: string, valueOrCallback: ValueOrCallback,
                group: string, groupLabel: string, cache: EntryCache)
      modifies factory
      ensures mergeTag == SanitizeMergeTag(factory.sanitizeClass, tag) && Braced()
      ensures source == valueOrCallback && this.factory == factory && this.cache == cache
      ensures factory.State() ==
        Registered(old(factory.State()), factory.sanitizeClass, factory.sanitizeTitle(group), tag, tagLabel, groupLabel)
    {
      mergeTag := SanitizeMergeTag(factory.sanitizeClass, tag);
      source := valueOrCallback;
      this.factory := factory;
      this.cache := cache;
      new;
      var _ := factory.CreateMergeGroup(group, TagGroupLabel(groupLabel));
      factory.AddMergeTag(mergeTag, tagLabel, group, "");
    }

    /** The merge tag is wrapped in braces, as sanitising leaves it. */
    predicate Braced() {
      |mergeTag| >= 2 && mergeTag[0] == '{' && mergeTag[|mergeTag| - 1] == '}'
    }

    /** `get_merge_tag()`: the sanitised tag, braces included. */
    function GetMergeTag(): (r: string)
      requires Braced()
      ensures |r| >= 2 && r[0] == '{' && r[|r| - 1] == '}'
    {
      mergeTag
    }

    /** The replacement: the callback's result for this form and entry, or the stored value. */
    function Value(form: Form, entry: Entry): string {
      match source
      case Callable(f) => f(form, entry)
      case Plain(v) => v
    }

    /** `gform_replace_merge_tags($text, $form, $entry)`. */
    function GformReplaceMergeTags(text: string, form: Form, entry: Entry): (r: string)
      ensures r == TagReplaced(text, mergeTag, Value(form, entry))
      ensures |mergeTag| > 0 ==>
        var pieces := Explode(text, mergeTag);
        Implode(mergeTag, pieces) == text && (forall i :: 0 <= i < |pieces| ==> !Contains(pieces[i], mergeTag)) &&
        r == Implode(Value(form, entry), pieces)
    {
      TagReplacedEvery(text, mergeTag, Value(form, entry));
      TagReplaced(text, mergeTag, Value(form, entry))
    }

    /** `get_entry()`. */
    method GetEntry(env: Env) returns (r: Option<Entry>)
      modifies cache
      ensures old(cache.entry).Some? ==> r == old(cache.entry) && cache.entry == old(cache.entry)
      ensures old(cache.entry).None? ==> r == FetchedEntry(GetEntryId(env), env) && cache.entry == r
    {
      r := cache.Lookup(GetEntryId(env), env);
    }

    /** `replace_merge_tags($content)`: every Gravity Forms merge tag replaced for the entry, if there is one. */
    method ReplaceMergeTags(content: string, env: Env) returns (r: string)
      modifies cache
      ensures old(cache.entry).None? && FetchedEntry(GetEntryId(env), env).None? ==> r == content
      ensures cache.entry.Some? ==>
        var entry := cache.entry.value;
        r == env.replaceVariables(content, env.formMeta(EntryField(entry, "form_id")), entry)
    {
      var entry := GetEntry(env);
      if entry.None? {
        return content;
      }
      var form := env.formMeta(EntryField(entry.value, "form_id"));
      r := env.replaceVariables(content, form, entry.value);
    }
  }
}
