/**
 * The merge-tag registry: a table of group labels (`groups`, slug to label) and a table of merge tags
 * per group (`merge_tags`, slug to tag to `{tag, label}`), with operations that create and remove
 * groups and add and remove tags, reporting whether they did anything.
 */
module MergeTagFactory {
  import opened Strings
  import opened Php

  /** The `{tag, label}` record of a registered merge tag. */
  datatype TagInfo = TagInfo(tag: string, tagLabel: string)

  type TagTable = map<string, map<string, TagInfo>>

  /** Both tables of the factory, as values. */
  datatype Registry = Registry(groups: map<string, string>, mergeTags: TagTable)

  /** `group_exists($group)`: the slug is a key of either table. */
  predicate Has(r: Registry, group: string) {
    group in r.mergeTags || group in r.groups
  }

  /** Every group has both a label and a tag table. */
  predicate Consistent(r: Registry) {
    r.groups.Keys == r.mergeTags.Keys
  }

  predicate IsSeparator(c: char) {
    c == '-' || c == '_' || IsSpace(c)
  }

  /** The label of a group created without one: `ucwords(str_replace(['-', '_'], ' ', $slug))`. */
  function DefaultGroupLabel(slug: string): string {
    UcWords(ReplaceAll(ReplaceAll(slug, "-", " "), "_", " "))
  }

  /** The default label has dashes and underscores as spaces and every word capitalised. */
  lemma DefaultGroupLabelChars(slug: string)
    ensures |DefaultGroupLabel(slug)| == |slug|
    ensures forall i :: 0 <= i < |slug| ==>
      DefaultGroupLabel(slug)[i] == if slug[i] == '-' || slug[i] == '_' then ' '
                                    else if i == 0 || IsSeparator(slug[i - 1]) then Upper(slug[i])
                                    else slug[i]
  {
    ReplaceAllChar(slug, '-', ' ');
    var spaced := SwapChar(slug, '-', ' ');
    ReplaceAllChar(spaced, '_', ' ');
    var words := SwapChar(spaced, '_', ' ');
    assert DefaultGroupLabel(slug) == UcWords(words);
    forall i | 0 <= i < |slug|
      ensures DefaultGroupLabel(slug)[i] == if slug[i] == '-' || slug[i] == '_' then ' '
                                           else if i == 0 || IsSeparator(slug[i - 1]) then Upper(slug[i])
                                           else slug[i]
    {
      LabelCharAt(slug, words, i);
    }
  }

  /** One character of the default label, from the slug with its separators turned into spaces. */
  lemma LabelCharAt(slug: string, words: string, i: nat)
    requires i < |slug| == |words|
    requires words[i] == if slug[i] == '-' || slug[i] == '_' then ' ' else slug[i]
    requires i > 0 ==> words[i - 1] == if slug[i - 1] == '-' || slug[i - 1] == '_' then ' ' else slug[i - 1]
    ensures UcWords(words)[i] == if slug[i] == '-' || slug[i] == '_' then ' '
                                 else if i == 0 || IsSeparator(slug[i - 1]) then Upper(slug[i])
                                 else slug[i]
  {
  }

  /** The label a new group gets. */
  function GroupLabel(slug: string, groupLabel: string): string {
    if groupLabel != "" then groupLabel else DefaultGroupLabel(slug)
  }

  /** `create_merge_group` after sanitising the slug: the new state and whether the group was created. */
  function CreateGroup(r: Registry, slug: string, groupLabel: string): (Registry, bool) {
    if Has(r, slug) then (r, false)
    else (Registry(r.groups[slug := GroupLabel(slug, groupLabel)], r.mergeTags[slug := map[]]), true)
  }

  /** `remove_merge_group` after sanitising the slug. */
  function RemoveGroup(r: Registry, slug: string): (Registry, bool) {
    if !Has(r, slug) then (r, false)
    else (Registry(r.groups - {slug}, r.mergeTags - {slug}), true)
  }

  /** `add_merge_tag` for an already sanitised tag, stored under the sanitised group slug. */
  function AddTag(r: Registry, slug: string, tag: string, tagLabel: string, groupLabel: string): Registry {
    var r1 := if Has(r, slug) then r else CreateGroup(r, slug, groupLabel).0;
    var table := if slug in r1.mergeTags then r1.mergeTags[slug] else map[];
    Registry(r1.groups, r1.mergeTags[slug := table[tag := TagInfo(tag, tagLabel)]])
  }

  /** `remove_merge_tag` for an already sanitised tag and group slug. */
  function RemoveTag(r: Registry, slug: string, tag: string): (Registry, bool) {
    if !Has(r, slug) then (r, false)
    else if slug in r.mergeTags && tag in r.mergeTags[slug] then
      (Registry(r.groups, r.mergeTags[slug := r.mergeTags[slug] - {tag}]), true)
    else (r, false)
  }

  /** What `add_merge_tag` does as written: it creates the group under its sanitised slug `slug`, but stores the tag under the raw `group`. */
  function AddTagAsWritten(r: Registry, group: string, slug: string, tag: string, tagLabel: string, groupLabel: string): Registry {
    var r1 := if Has(r, group) then r else CreateGroup(r, slug, groupLabel).0;
    var table := if group in r1.mergeTags then r1.mergeTags[group] else map[];
    Registry(r1.groups, r1.mergeTags[group := table[tag := TagInfo(tag, tagLabel)]])
  }

  // ---- sanitising tags --------------------------------------------------------------------------

  const TrimChars: set<char> := {' ', '{', '}'}

  /** `sanitize_merge_tag($merge_tag)`: spaces and braces trimmed, `sanitize_html_class`, then wrapped in braces. */
  function SanitizeMergeTag(sanitizeClass: string -> string, tag: string): (r: string)
    ensures |r| >= 2 && r[0] == '{' && r[|r| - 1] == '}'
    ensures r[1..|r| - 1] == sanitizeClass(Trim(tag, TrimChars))
  {
    "{" + sanitizeClass(Trim(tag, TrimChars)) + "}"
  }

  /** A name whose ends are not spaces or braces is not trimmed. */
  lemma TrimKeeps(name: string)
    requires name == [] || (name[0] !in TrimChars && name[|name| - 1] !in TrimChars)
    ensures Trim(name, TrimChars) == name
  {
  }

  lemma TrimFirst(s: string)
    requires |s| > 0 && s[0] in TrimChars
    ensures Trim(s, TrimChars) == Trim(s[1..], TrimChars)
  {
  }

  lemma TrimLast(s: string)
    requires |s| > 0 && s[0] !in TrimChars && s[|s| - 1] in TrimChars
    ensures Trim(s, TrimChars) == Trim(s[..|s| - 1], TrimChars)
  {
  }

  /** A tag may be given with or without its braces. */
  lemma SanitizeWithBraces(sanitizeClass: string -> string, name: string)
    requires name == [] || (name[0] !in TrimChars && name[|name| - 1] !in TrimChars)
    ensures SanitizeMergeTag(sanitizeClass, "{" + name + "}") == SanitizeMergeTag(sanitizeClass, name)
  {
    var t := "{" + name + "}";
    var u := name + "}";
    assert t[1..] == u;
    TrimFirst(t);
    assert u[..|u| - 1] == name;
    if name == [] {
      TrimFirst(u);
    } else {
      assert u[0] == name[0];
      TrimLast(u);
      TrimKeeps(name);
    }
  }

  /**
   * Sanitising twice is sanitising once, when `sanitize_html_class` is idempotent and leaves no space or
   * brace (it keeps only letters, digits, `-` and `_`).
   */
  lemma SanitizeIdempotent(sanitizeClass: string -> string, tag: string)
    requires forall x :: sanitizeClass(sanitizeClass(x)) == sanitizeClass(x)
    requires forall x, i :: 0 <= i < |sanitizeClass(x)| ==> sanitizeClass(x)[i] !in TrimChars
    ensures SanitizeMergeTag(sanitizeClass, SanitizeMergeTag(sanitizeClass, tag)) == SanitizeMergeTag(sanitizeClass, tag)
  {
    var inner := sanitizeClass(Trim(tag, TrimChars));
    SanitizeWithBraces(sanitizeClass, inner);
    TrimKeeps(inner);
  }

  // ---- properties of the operations -------------------------------------------------------------

  /** Creating succeeds exactly for a new slug; it adds the labelled, empty group and changes nothing else. */
  lemma CreateGroupEffect(r: Registry, slug: string, groupLabel: string)
    ensures CreateGroup(r, slug, groupLabel).1 <==> !Has(r, slug)
    ensures !CreateGroup(r, slug, groupLabel).1 ==> CreateGroup(r, slug, groupLabel).0 == r
    ensures CreateGroup(r, slug, groupLabel).1 ==>
      var r2 := CreateGroup(r, slug, groupLabel).0;
      r2.groups[slug] == GroupLabel(slug, groupLabel) && r2.mergeTags[slug] == map[] &&
      forall g :: g != slug ==> (g in r2.groups <==> g in r.groups) && (g in r2.mergeTags <==> g in r.mergeTags)
  {
  }

  /** Removing succeeds exactly for an existing slug; it drops it from both tables and nothing else. */
  lemma RemoveGroupEffect(r: Registry, slug: string)
    ensures RemoveGroup(r, slug).1 <==> Has(r, slug)
    ensures !Has(RemoveGroup(r, slug).0, slug)
    ensures forall g :: g != slug ==> Has(RemoveGroup(r, slug).0, g) == Has(r, g)
    ensures forall g :: g != slug && g in r.groups ==> RemoveGroup(r, slug).0.groups[g] == r.groups[g]
    ensures forall g :: g != slug && g in r.mergeTags ==> RemoveGroup(r, slug).0.mergeTags[g] == r.mergeTags[g]
  {
  }

  /** Removing a group just created restores the tables. */
  lemma CreateThenRemove(r: Registry, slug: string, groupLabel: string)
    requires !Has(r, slug)
    ensures RemoveGroup(CreateGroup(r, slug, groupLabel).0, slug) == (r, true)
  {
    var r2 := CreateGroup(r, slug, groupLabel).0;
    assert r2.groups - {slug} == r.groups;
    assert r2.mergeTags - {slug} == r.mergeTags;
  }

  /** Adding a tag maps it to its record in its group, and leaves every other tag of every group as it was. */
  lemma AddTagEffect(r: Registry, slug: string, tag: string, tagLabel: string, groupLabel: string)
    ensures var r2 := AddTag(r, slug, tag, tagLabel, groupLabel);
      Has(r2, slug) && slug in r2.mergeTags && r2.mergeTags[slug][tag] == TagInfo(tag, tagLabel)
    ensures var r2 := AddTag(r, slug, tag, tagLabel, groupLabel);
      forall g, t :: g in r.mergeTags && t in r.mergeTags[g] && (g, t) != (slug, tag) ==>
        g in r2.mergeTags && t in r2.mergeTags[g] && r2.mergeTags[g][t] == r.mergeTags[g][t]
  {
  }

  /** Adding the same tag again overwrites its record. */
  lemma AddTagOverwrites(r: Registry, slug: string, tag: string, label1: string, label2: string, groupLabel: string)
    ensures AddTag(AddTag(r, slug, tag, label1, groupLabel), slug, tag, label2, groupLabel) == AddTag(r, slug, tag, label2, groupLabel)
  {
    var r1 := if Has(r, slug) then r else CreateGroup(r, slug, groupLabel).0;
    var table := if slug in r1.mergeTags then r1.mergeTags[slug] else map[];
    assert table[tag := TagInfo(tag, label1)][tag := TagInfo(tag, label2)] == table[tag := TagInfo(tag, label2)];
  }

  /** Removing succeeds exactly when the group exists and holds the tag; it drops that tag only. */
  lemma RemoveTagEffect(r: Registry, slug: string, tag: string)
    ensures RemoveTag(r, slug, tag).1 <==> Has(r, slug) && slug in r.mergeTags && tag in r.mergeTags[slug]
    ensures !RemoveTag(r, slug, tag).1 ==> RemoveTag(r, slug, tag).0 == r
    ensures RemoveTag(r, slug, tag).1 ==>
      var r2 := RemoveTag(r, slug, tag).0;
      r2.groups == r.groups && r2.mergeTags.Keys == r.mergeTags.Keys && tag !in r2.mergeTags[slug] &&
      forall t :: t != tag && t in r.mergeTags[slug] ==> t in r2.mergeTags[slug] && r2.mergeTags[slug][t] == r.mergeTags[slug][t]
  {
  }

  /** Removing a tag just added to an existing group restores the tables. */
  lemma AddThenRemoveTag(r: Registry, slug: string, tag: string, tagLabel: string, groupLabel: string)
    requires slug in r.mergeTags && tag !in r.mergeTags[slug]
    ensures RemoveTag(AddTag(r, slug, tag, tagLabel, groupLabel), slug, tag) == (r, true)
  {
    var table := r.mergeTags[slug];
    var added := table[tag := TagInfo(tag, tagLabel)];
    assert added - {tag} == table;
    assert r.mergeTags[slug := added][slug := table] == r.mergeTags;
  }

  /** Every operation keeps each group's label and tag table together. */
  lemma OperationsKeepConsistent(r: Registry, slug: string, tag: string, tagLabel: string, groupLabel: string)
    requires Consistent(r)
    ensures Consistent(CreateGroup(r, slug, groupLabel).0)
    ensures Consistent(RemoveGroup(r, slug).0)
    ensures Consistent(AddTag(r, slug, tag, tagLabel, groupLabel))
    ensures Consistent(RemoveTag(r, slug, tag).0)
  {
  }

  /**
   * As written, `add_merge_tag('{t}', 'T', 'My Group')` on an empty registry creates the labelled group
   * `my-group` but files the tag under `My Group`, a group without a label.
   */
  lemma AddTagAsWrittenUnlabelled()
    ensures var r := AddTagAsWritten(Registry(map[], map[]), "My Group", "my-group", "{t}", "T", "");
      !Consistent(r) && "My Group" in r.mergeTags && "My Group" !in r.groups && r.mergeTags["my-group"] == map[]
  {
    var r := AddTagAsWritten(Registry(map[], map[]), "My Group", "my-group", "{t}", "T", "");
    assert "My Group" != "my-group";
    assert "My Group" in r.mergeTags.Keys && "My Group" !in r.groups.Keys;
  }

  /** Stored under its sanitised slug, a tag added to a new group lands in that labelled group. */
  lemma AddTagLabelled(r: Registry, slug: string, tag: string, tagLabel: string, groupLabel: string)
    requires Consistent(r)
    ensures var r2 := AddTag(r, slug, tag, tagLabel, groupLabel);
      Consistent(r2) && slug in r2.groups && tag in r2.mergeTags[slug]
  {
    OperationsKeepConsistent(r, slug, tag, tagLabel, groupLabel);
  }

  /**
   * As written, `remove_merge_tag('{t}', 'My Group')` does not find a tag of group `my-group`, although
   * `remove_merge_group('My Group')` removes that very group.
   */
  lemma RemoveTagAsWrittenMisses()
    ensures var r := Registry(map["my-group" := "My Group"], map["my-group" := map["{t}" := TagInfo("{t}", "T")]]);
      RemoveTag(r, "My Group", "{t}") == (r, false) && RemoveGroup(r, "my-group").1
  {
    assert "My Group" != "my-group";
  }

  // ---- the factory object -----------------------------------------------------------------------

  class MergeTagFactory {
    /** `$groups`: group slug to label. */
    var groups: map<string, string>
    /** `$merge_tags`: group slug to its tags. */
    var mergeTags: TagTable
    /** `sanitize_title_with_dashes`. */
    const sanitizeTitle: string -> string
    /** `sanitize_html_class`. */
    const sanitizeClass: string -> string

    function State(): Registry
      reads this
    {
      Registry(groups, mergeTags)
    }

    constructor(sanitizeTitle: string -> string, sanitizeClass: string -> string)
      ensures State() == Registry(map[], map[])
      ensures this.sanitizeTitle == sanitizeTitle && this.sanitizeClass == sanitizeClass
    {
      groups := map[];
      mergeTags := map[];
      this.sanitizeTitle := sanitizeTitle;
      this.sanitizeClass := sanitizeClass;
    }

    /** `group_exists($group)`. */
    predicate GroupExists(group: string)
      reads this
      ensures GroupExists(group) <==> Has(State(), group)
    {
      group in mergeTags || group in groups
    }

    /** `create_merge_group($group, $label)`. */
    method CreateMergeGroup(group: string, groupLabel: string) returns (created: bool)
      modifies this
      ensures (State(), created) == CreateGroup(old(State()), sanitizeTitle(group), groupLabel)
    {
      var slug := sanitizeTitle(group);
      if GroupExists(slug) {
        return false;
      }
      mergeTags := mergeTags[slug := map[]];
      var newLabel := groupLabel;
      if newLabel == "" {
        newLabel := DefaultGroupLabel(slug);
      }
      groups := groups[slug := newLabel];
      created := true;
    }

    /** `remove_merge_group($group)`. */
    method RemoveMergeGroup(group: string) returns (removed: bool)
      modifies this
      ensures (State(), removed) == RemoveGroup(old(State()), sanitizeTitle(group))
    {
      var slug := sanitizeTitle(group);
      if !GroupExists(slug) {
        return false;
      }
      mergeTags := mergeTags - {slug};
      groups := groups - {slug};
      removed := true;
    }

    /** `add_merge_tag($merge_tag, $merge_tag_label, $group, $group_label)`, filed under the sanitised group slug. */
    method AddMergeTag(tag: string, tagLabel: string, group: string, groupLabel: string)
      modifies this
      ensures State() == AddTag(old(State()), sanitizeTitle(group), SanitizeMergeTag(sanitizeClass, tag), tagLabel, groupLabel)
    {
      var slug := sanitizeTitle(group);
      if !GroupExists(slug) {
        var _ := CreateMergeGroup(group, groupLabel);
      }
      var sanitized := SanitizeMergeTag(sanitizeClass, tag);
      var table := if slug in mergeTags then mergeTags[slug] else map[];
      mergeTags := mergeTags[slug := table[sanitized := TagInfo(sanitized, tagLabel)]];
    }

    /** `remove_merge_tag($merge_tag, $group)`, looked up under the sanitised group slug. */
    method RemoveMergeTag(tag: string, group: string) returns (removed: bool)
      modifies this
      ensures (State(), removed) == RemoveTag(old(State()), sanitizeTitle(group), SanitizeMergeTag(sanitizeClass, tag))
    {
      var slug := sanitizeTitle(group);
      if !GroupExists(slug) {
        return false;
      }
      var sanitized := SanitizeMergeTag(sanitizeClass, tag);
      if slug in mergeTags && sanitized in mergeTags[slug] {
        mergeTags := mergeTags[slug := mergeTags[slug] - {sanitized}];
        return true;
      }
      removed := false;
    }
  }
}
