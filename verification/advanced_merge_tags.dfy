/**
 * The advanced merge tags `{type:args}` and `{type:label:args}`. The argument block is read as a
 * query string, `get(name)` and `post(name)` inside an argument value are replaced by request
 * parameters, and the type picks the resolver: a post property, post meta, an entry property,
 * entry meta or the result of a named callable. Every occurrence of each tag is replaced by its
 * value, and the text is scanned again until no tag is left.
 */
module AdvancedMergeTags {
  import opened Options
  import opened Strings
  import opened Php
  import opened Scanner
  import opened Host
  import opened QueryString

  // ---- value modifiers ----------------------------------------------------------------------------

  /**
   * What a modifier `name(arg)` is replaced by: the query parameter for `get`, the POST parameter
   * for `post` (the names compared case-sensitively), and nothing for any other name.
   */
  function ModifierValue(name: string, arg: string, env: Env): string {
    if name == "get" then Query(env, arg) else if name == "post" then PostParam(env, arg) else ""
  }

  /** A modifier match and its value. */
  function ModifierPair(s: string, sp: Span, env: Env): (string, string)
    requires MatchAt(Modifier, s, sp.start) == Some(sp.end)
  {
    var sh := ModifierAt(s, sp.start).value;
    (s[sp.start..sp.end], ModifierValue(s[sp.start..sh.nameEnd], s[sh.nameEnd + 1..sh.argEnd], env))
  }

  function ModifierPairs(s: string, env: Env): (ps: seq<(string, string)>)
    ensures |ps| == |Scan(Modifier, s, 0)|
  {
    var spans := Scan(Modifier, s, 0);
    seq(|spans|, k requires 0 <= k < |spans| => ModifierPair(s, spans[k], env))
  }

  /** `check_for_value_modifiers($text)`: every modifier found replaced by its value, in order. */
  function WithModifiers(s: string, env: Env): string {
    ReplaceEach(s, ModifierPairs(s, env))
  }

  method CheckForValueModifiers(text: string, env: Env) returns (r: string)
    ensures r == WithModifiers(text, env)
  {
    var spans := Scan(Modifier, text, 0);
    ghost var pairs := ModifierPairs(text, env);
    r := text;
    var k := 0;
    while k < |spans|
      invariant 0 <= k <= |spans|
      invariant r == ReplaceEach(text, pairs[..k])
    {
      var pair := ModifierPair(text, spans[k], env);
      assert pair == pairs[k];
      ReplaceEachPrefix(text, pairs, k);
      r := ReplaceAll(r, pair.0, pair.1);
      k := k + 1;
    }
    assert pairs[..k] == pairs;
  }

  /** A value holding no modifier is left as it is. */
  lemma NoModifier(s: string, env: Env)
    requires forall j :: ModifierAt(s, j).None?
    ensures WithModifiers(s, env) == s
  {
    assert forall j :: MatchAt(Modifier, s, j).None?;
    ScanEmpty(Modifier, s, 0);
  }

  /** A modifier spanning `name(arg)` from `0`. */
  lemma ModifierAtWhole(name: string, arg: string)
    requires |name| > 0 && AllChars(name, IsLetter)
    requires |arg| > 0 && AllChars(arg, IsModifierArgChar)
    ensures ModifierAt(name + "(" + arg + ")", 0) == Some(ModifierShape(|name|, |name| + 1 + |arg|))
  {
    var t := name + "(" + arg + ")";
    assert forall k :: 0 <= k < |name| ==> t[k] == name[k];
    RunEndExact(t, 0, |name|, IsLetter);
    assert forall k :: |name| + 1 <= k < |name| + 1 + |arg| ==> t[k] == arg[k - |name| - 1];
    RunEndExact(t, |name| + 1, |name| + 1 + |arg|, IsModifierArgChar);
  }

  /** An argument value that is exactly one modifier `name(arg)` becomes that modifier's value. */
  lemma WholeValueModifier(name: string, arg: string, env: Env)
    requires |name| > 0 && AllChars(name, IsLetter)
    requires |arg| > 0 && AllChars(arg, IsModifierArgChar)
    ensures WithModifiers(name + "(" + arg + ")", env) == ModifierValue(name, arg, env)
  {
    var t := name + "(" + arg + ")";
    ModifierAtWhole(name, arg);
    ScanWhole(Modifier, t);
    assert t[0..|name|] == name && t[|name| + 1..|name| + 1 + |arg|] == arg && t[0..|t|] == t;
    var v := ModifierValue(name, arg, env);
    assert ModifierPairs(t, env) == [(t, v)] by {
      assert ModifierPair(t, Span(0, |t|), env) == (t, v);
    }
    ReplaceWhole(t, v);
    ReplaceEachSingle(t, (t, v));
  }

  // ---- resolvers ----------------------------------------------------------------------------------

  /** `get_post_merge_tag_value`: the `prop` property of the post with ID `id`. */
  function PostValue(args: Args, env: Env): (r: Value)
    ensures !ArgTruthy(ArgOr(args, "id")) || !ArgTruthy(ArgOr(args, "prop")) ==> r == Scalar("")
    ensures ArgText(ArgOr(args, "id")) !in env.posts ==> r == Scalar("")
    ensures r != Scalar("") ==>
              var post := env.posts[ArgText(ArgOr(args, "id"))];
              ArgText(ArgOr(args, "prop")) in post && r == post[ArgText(ArgOr(args, "prop"))]
  {
    var id := ArgOr(args, "id");
    var prop := ArgOr(args, "prop");
    if !ArgTruthy(id) || !ArgTruthy(prop) then Scalar("")
    else if ArgText(id) !in env.posts then Scalar("")
    else
      var post := env.posts[ArgText(id)];
      if ArgText(prop) in post then post[ArgText(prop)] else Scalar("")
  }

  /** `get_post_meta_merge_tag_value`: the `meta_key` meta of the post with ID `id`. */
  function PostMetaValue(args: Args, env: Env): (r: Value)
    ensures !ArgTruthy(ArgOr(args, "id")) || !ArgTruthy(ArgOr(args, "meta_key")) ==> r == Scalar("")
    ensures ArgTruthy(ArgOr(args, "id")) && ArgTruthy(ArgOr(args, "meta_key")) ==>
              r == PostMeta(env, ArgText(ArgOr(args, "id")), ArgText(ArgOr(args, "meta_key")))
  {
    var id := ArgOr(args, "id");
    var key := ArgOr(args, "meta_key");
    if !ArgTruthy(id) || !ArgTruthy(key) then Scalar("") else PostMeta(env, ArgText(id), ArgText(key))
  }

  /** An entry id passed through the decryption hook, when there is one. */
  function Decrypted(env: Env, id: string): string {
    match env.decryptHook
    case Some(h) => h(id)
    case None => id
  }

  /** `GFAPI::get_entry($id)`, `None` standing for the error it returns when there is no entry. */
  function FetchEntry(env: Env, id: string): (r: Option<Entry>)
    ensures r.Some? ==> |r.value| > 0 && id in env.entries && r.value == env.entries[id]
    ensures r.None? ==> id !in env.entries || |env.entries[id]| == 0
  {
    if id in env.entries && |env.entries[id]| > 0 then Some(env.entries[id]) else None
  }

  /**
   * The entry `get_entry_merge_tag_value` reads: the `entry` argument when it is set, otherwise the
   * entry whose id is the `id` argument or else the `eid` query parameter.
   */
  function EntrySource(args: Args, env: Env): (r: Option<Entry>)
    ensures ArgTruthy(ArgOr(args, "entry")) && ArgOr(args, "entry").EntryVal? ==> r == Some(ArgOr(args, "entry").e)
    ensures !ArgTruthy(ArgOr(args, "entry")) && ArgTruthy(ArgOr(args, "id")) ==>
              r == FetchEntry(env, Decrypted(env, ArgText(ArgOr(args, "id"))))
    ensures !ArgTruthy(ArgOr(args, "entry")) && !ArgTruthy(ArgOr(args, "id")) ==>
              r == FetchEntry(env, Decrypted(env, Query(env, "eid")))
  {
    var entryArg := ArgOr(args, "entry");
    if ArgTruthy(entryArg) then
      (match entryArg case EntryVal(e) => Some(e) case _ => None)
    else
      var id := ArgOr(args, "id");
      FetchEntry(env, Decrypted(env, if ArgTruthy(id) then ArgText(id) else Query(env, "eid")))
  }

  /** The `prop` argument, or else the first argument key. */
  function PropOrFirstKey(args: Args, name: string): (p: string)
    ensures ArgTruthy(ArgOr(args, name)) ==> p == ArgText(ArgOr(args, name))
    ensures !ArgTruthy(ArgOr(args, name)) ==> p == FirstKey(args).GetOr("")
  {
    if ArgTruthy(ArgOr(args, name)) then ArgText(ArgOr(args, name)) else FirstKey(args).GetOr("")
  }

  /** `get_entry_merge_tag_value`: a property of the entry. */
  function EntryValue(args: Args, env: Env): (r: string)
    ensures EntrySource(args, env).None? || !Truthy(PropOrFirstKey(args, "prop")) ==> r == ""
    ensures EntrySource(args, env).Some? && Truthy(PropOrFirstKey(args, "prop")) ==>
              r == EntryField(EntrySource(args, env).value, PropOrFirstKey(args, "prop"))
  {
    var prop := PropOrFirstKey(args, "prop");
    match EntrySource(args, env)
    case None => ""
    case Some(e) => if Truthy(prop) then EntryField(e, prop) else ""
  }

  /**
   * The entry id `get_entry_meta_merge_tag_value` uses: the `id` argument, else the `eid` query
   * parameter, else the id of the entry argument, else nothing.
   */
  function EntryMetaId(args: Args, env: Env): (id: string)
    ensures ArgTruthy(ArgOr(args, "id")) ==> id == ArgText(ArgOr(args, "id"))
    ensures !ArgTruthy(ArgOr(args, "id")) && Truthy(Query(env, "eid")) ==> id == Query(env, "eid")
    ensures !ArgTruthy(ArgOr(args, "id")) && !Truthy(Query(env, "eid")) ==>
              id == if ArgOr(args, "entry").EntryVal? then EntryField(ArgOr(args, "entry").e, "id") else ""
  {
    var id := ArgOr(args, "id");
    if ArgTruthy(id) then ArgText(id)
    else if Truthy(Query(env, "eid")) then Query(env, "eid")
    else match ArgOr(args, "entry")
      case EntryVal(e) => EntryField(e, "id")
      case _ => ""
  }

  /** `gform_get_meta($id, $key)`: the meta value, `false` (printed as `""`) when there is none. */
  function EntryMeta(env: Env, id: string, key: string): Value {
    if (id, key) in env.entryMeta then env.entryMeta[(id, key)] else Scalar("")
  }

  /** `get_entry_meta_merge_tag_value`: the `meta_key` meta (or first argument key) of the entry. */
  function EntryMetaValue(args: Args, env: Env): (r: Value)
    ensures !Truthy(EntryMetaId(args, env)) || !Truthy(PropOrFirstKey(args, "meta_key")) ==> r == Scalar("")
    ensures Truthy(EntryMetaId(args, env)) && Truthy(PropOrFirstKey(args, "meta_key")) ==>
              r == EntryMeta(env, Decrypted(env, EntryMetaId(args, env)), PropOrFirstKey(args, "meta_key"))
  {
    var id := EntryMetaId(args, env);
    var key := PropOrFirstKey(args, "meta_key");
    if !Truthy(id) || !Truthy(key) then Scalar("") else EntryMeta(env, Decrypted(env, id), key)
  }

  /** `is_callable($callback)` for a callback argument. */
  predicate IsCallable(env: Env, v: ArgVal) {
    v.Str? && v.s in env.callables
  }

  /**
   * `get_callback_merge_tag_value`: the result of calling the `callback` argument with the other
   * arguments, `""` when it is not callable.
   */
  function CallbackValue(args: Args, env: Env): (r: Value)
    ensures !IsCallable(env, ArgOr(args, "callback")) ==> r == Scalar("")
    ensures IsCallable(env, ArgOr(args, "callback")) ==>
              r == env.callables[ArgOr(args, "callback").s](Remove(args, "callback"))
  {
    var callback := ArgOr(args, "callback");
    if IsCallable(env, callback) then env.callables[callback.s](Remove(args, "callback")) else Scalar("")
  }

  // ---- dispatch -----------------------------------------------------------------------------------

  /** A merge tag found in the text: the whole tag, its type and its (last) argument block. */
  datatype TagMatch = TagMatch(text: string, kind: string, args: string)

  function TagMatchOf(s: string, sp: Span): (m: TagMatch)
    requires MatchAt(Tag, s, sp.start) == Some(sp.end)
    ensures m.text == s[sp.start..sp.end] && CountChar('{', m.text) == 1
  {
    var sh := TagAt(s, sp.start).value;
    var t := s[sp.start..sp.end];
    assert t == [t[0]] + t[1..];
    assert '{' !in t[1..] by {
      forall k | 0 <= k < |t| - 1
        ensures t[1..][k] != '{'
      {
        assert t[1..][k] == s[sp.start + 1 + k];
      }
    }
    TagMatch(t, s[sp.start + 1..sh.typeEnd], s[sh.argsStart..sh.argsEnd])
  }

  /** The merge tags `preg_match_all` finds in the text, in order. */
  function TagMatches(s: string): (ms: seq<TagMatch>)
    ensures |ms| == |Scan(Tag, s, 0)|
  {
    var spans := Scan(Tag, s, 0);
    seq(|spans|, k requires 0 <= k < |spans| => TagMatchOf(s, spans[k]))
  }

  /** The scanner finds no tag exactly when no position starts one. */
  lemma TagMatchesEmpty(s: string)
    ensures TagMatches(s) == [] <==> forall j :: TagAt(s, j).None?
  {
    ScanEmpty(Tag, s, 0);
    if TagMatches(s) == [] {
      forall j
        ensures TagAt(s, j).None?
      {
        assert MatchAt(Tag, s, j).None?;
      }
    }
  }

  /** Every tag found occurs in the text and holds exactly one `{`. */
  lemma TagMatchInText(s: string, k: nat)
    requires k < |TagMatches(s)|
    ensures CountChar('{', TagMatches(s)[k].text) == 1 && Contains(s, TagMatches(s)[k].text)
  {
    var sp := Scan(Tag, s, 0)[k];
    var m := TagMatchOf(s, sp);
    assert TagMatches(s)[k] == m;
    SliceOccurs(s, sp.start, sp.end);
  }

  /** Arguments after `array_map(check_for_value_modifiers, …)`. */
  function ApplyModifiers(args: Args, env: Env): (r: Args)
    ensures |r| == |args| && forall k :: 0 <= k < |args| ==> r[k].0 == args[k].0
    ensures forall k :: 0 <= k < |args| && args[k].1.Str? ==> r[k].1 == Str(WithModifiers(args[k].1.s, env))
    ensures forall k :: 0 <= k < |args| && !args[k].1.Str? ==> r[k].1 == args[k].1
  {
    seq(|args|, k requires 0 <= k < |args| =>
      (args[k].0, match args[k].1 case Str(v) => Str(WithModifiers(v, env)) case other => other))
  }

  /** Arguments whose values hold no modifier are passed on unchanged. */
  lemma PlainArgsKept(args: Args, env: Env)
    requires forall k, j :: 0 <= k < |args| && args[k].1.Str? ==> ModifierAt(args[k].1.s, j).None?
    ensures ApplyModifiers(args, env) == args
  {
    forall k | 0 <= k < |args| && args[k].1.Str?
      ensures WithModifiers(args[k].1.s, env) == args[k].1.s
    {
      NoModifier(args[k].1.s, env);
    }
  }

  /** The arguments of a tag: its argument block parsed as a query string, modifiers applied. */
  function TagArgs(block: string, env: Env): Args {
    ApplyModifiers(ParseQuery(block), env)
  }

  /** The entry given to the resolvers, as the `entry` argument. */
  function EntryArg(entry: Option<Entry>): ArgVal {
    match entry
    case Some(e) => EntryVal(e)
    case None => NullVal
  }

  /**
   * The arguments of a `callback` tag: the first key becomes the `callback` argument and is removed
   * as an argument itself, and the entry is added.
   */
  function CallbackArgs(args: Args, entry: Option<Entry>): Args {
    var name := match FirstKey(args) case Some(k) => Str(k) case None => NullVal;
    var withName := Put(args, "callback", name);
    Put(Remove(withName, ArgText(name)), "entry", EntryArg(entry))
  }

  /** The value a tag resolves to, by its type (compared case-sensitively). */
  function Resolve(m: TagMatch, entry: Option<Entry>, env: Env): Value {
    var args := TagArgs(m.args, env);
    if m.kind == "post" then PostValue(args, env)
    else if m.kind == "post_meta" || m.kind == "custom_field" then PostMetaValue(args, env)
    else if m.kind == "entry" then Scalar(EntryValue(Put(args, "entry", EntryArg(entry)), env))
    else if m.kind == "entry_meta" then EntryMetaValue(Put(args, "entry", EntryArg(entry)), env)
    else if m.kind == "callback" then CallbackValue(CallbackArgs(args, entry), env)
    else Scalar("")
  }

  predicate IsKnownKind(kind: string) {
    kind == "post" || kind == "post_meta" || kind == "custom_field" || kind == "entry" ||
    kind == "entry_meta" || kind == "callback"
  }

  /** The text a tag is replaced by: an array or object result becomes `""`, as does an unknown type. */
  function TagValue(m: TagMatch, entry: Option<Entry>, env: Env): (r: string)
    ensures !IsKnownKind(m.kind) ==> r == ""
    ensures Resolve(m, entry, env).Composite? ==> r == ""
    ensures Resolve(m, entry, env).Scalar? ==> r == Resolve(m, entry, env).text
  {
    match Resolve(m, entry, env)
    case Scalar(t) => t
    case Composite => ""
  }

  /** An entry whose `id` is missing or empty is no entry: GF passes such entries before submission. */
  function KnownEntry(entry: Option<Entry>): (r: Option<Entry>)
    ensures r.Some? <==> entry.Some? && EntryField(entry.value, "id") != ""
    ensures r.Some? ==> r == entry
  {
    match entry
    case Some(e) => if EntryField(e, "id") == "" then None else entry
    case None => None
  }

  // ---- what some tags resolve to ----------------------------------------------------------------

  /** A value in which no modifier starts anywhere. */
  ghost predicate NoModifierIn(v: string) {
    forall j :: ModifierAt(v, j).None?
  }

  /** `{post:id=I&prop=P}` is the property `P` of post `I` when both are set and it is a string. */
  lemma PostTag(t: string, i: string, p: string, entry: Option<Entry>, env: Env)
    requires WellFormedPairs([("id", i), ("prop", p)])
    requires NoModifierIn(i) && NoModifierIn(p)
    ensures TagValue(TagMatch(t, "post", "id=" + i + "&prop=" + p), entry, env) ==
            if Truthy(i) && Truthy(p) && i in env.posts && p in env.posts[i] && env.posts[i][p].Scalar?
            then env.posts[i][p].text else ""
  {
    var args := [("id", Str(i)), ("prop", Str(p))];
    PostTagArgs(i, p, env);
    assert Resolve(TagMatch(t, "post", "id=" + i + "&prop=" + p), entry, env) == PostValue(args, env);
    assert ArgOr(args, "id") == Str(i);
    assert args[0].0 != "prop" && args[1..] == [("prop", Str(p))];
    assert Get(args, "prop") == Get(args[1..], "prop") == Some(Str(p));
  }

  /** The arguments of `{post:id=I&prop=P}`. */
  lemma PostTagArgs(i: string, p: string, env: Env)
    requires WellFormedPairs([("id", i), ("prop", p)])
    requires NoModifierIn(i) && NoModifierIn(p)
    ensures TagArgs("id=" + i + "&prop=" + p, env) == [("id", Str(i)), ("prop", Str(p))]
  {
    var kvs := [("id", i), ("prop", p)];
    assert Implode("&", Pieces(kvs)) == "id=" + i + "&prop=" + p;
    ParseQueryOfPairs(kvs);
    var parsed := ParseQuery("id=" + i + "&prop=" + p);
    assert parsed == [("id", Str(i)), ("prop", Str(p))];
    NoModifier(i, env);
    NoModifier(p, env);
  }

  /** Arguments of a tag whose block is one bare key. */
  lemma BareKeyArgs(k: string, env: Env)
    requires k != "" && '&' !in k && '=' !in k
    ensures TagArgs(k, env) == [(k, Str(""))]
  {
    ParseBareKey(k);
    NoModifier("", env);
  }

  /** The property `{entry:K}` reads, and the entry it reads it from. */
  lemma EntryTagArgs(k: string, e: Entry, env: Env)
    requires Truthy(k) && k != "prop" && k != "entry" && "id" in e
    ensures var args := Put([(k, Str(""))], "entry", EntryVal(e));
            EntrySource(args, env) == Some(e) && PropOrFirstKey(args, "prop") == k
  {
    var args := Put([(k, Str(""))], "entry", EntryVal(e));
    PutAfterOne(k, Str(""), "entry", EntryVal(e));
    assert ArgOr(args, "entry") == EntryVal(e);
    assert |e| > 0;
    assert ArgOr(args, "prop") == NullVal;
  }

  /** `{entry:K}` with a known entry is the entry's value for `K`: the first key names the property. */
  lemma EntryTag(t: string, k: string, e: Entry, env: Env)
    requires Truthy(k) && '&' !in k && '=' !in k && k != "prop" && k != "entry"
    requires EntryField(e, "id") != ""
    ensures TagValue(TagMatch(t, "entry", k), KnownEntry(Some(e)), env) == EntryField(e, k)
  {
    var args := Put([(k, Str(""))], "entry", EntryVal(e));
    assert Resolve(TagMatch(t, "entry", k), KnownEntry(Some(e)), env) == Scalar(EntryValue(args, env)) by {
      BareKeyArgs(k, env);
    }
    EntryTagArgs(k, e, env);
  }

  /**
   * `{entry_meta:K}` with a known entry and no `eid` in the query is the meta `K` of that entry
   * (its id passed through the decryption hook).
   */
  lemma EntryMetaTag(t: string, k: string, e: Entry, env: Env)
    requires Truthy(k) && '&' !in k && '=' !in k && k != "id" && k != "meta_key" && k != "entry"
    requires Truthy(EntryField(e, "id")) && !Truthy(Query(env, "eid"))
    ensures Resolve(TagMatch(t, "entry_meta", k), KnownEntry(Some(e)), env) ==
            EntryMeta(env, Decrypted(env, EntryField(e, "id")), k)
  {
    assert KnownEntry(Some(e)) == Some(e);
    EntryMetaResolve(t, k, Some(e), env);
    EntryMetaArgs(k, e, env);
  }

  /** `{entry_meta:K}` reads the meta value with the bare key `K` and the entry as arguments. */
  lemma EntryMetaResolve(t: string, k: string, entry: Option<Entry>, env: Env)
    requires k != "" && '&' !in k && '=' !in k
    ensures Resolve(TagMatch(t, "entry_meta", k), entry, env) ==
            EntryMetaValue(Put([(k, Str(""))], "entry", EntryArg(entry)), env)
  {
    BareKeyArgs(k, env);
  }

  /** The id and key `{entry_meta:K}` reads: the entry's id and `K`. */
  lemma EntryMetaArgs(k: string, e: Entry, env: Env)
    requires Truthy(k) && k != "id" && k != "meta_key" && k != "entry" && !Truthy(Query(env, "eid"))
    ensures EntryMetaId(Put([(k, Str(""))], "entry", EntryVal(e)), env) == EntryField(e, "id")
    ensures PropOrFirstKey(Put([(k, Str(""))], "entry", EntryVal(e)), "meta_key") == k
  {
    var args := Put([(k, Str(""))], "entry", EntryVal(e));
    PutAfterOne(k, Str(""), "entry", EntryVal(e));
    assert ArgOr(args, "id") == NullVal;
    assert ArgOr(args, "meta_key") == NullVal;
    assert ArgOr(args, "entry") == EntryVal(e);
  }

  /** The arguments a `{callback:F}` tag passes on: the callback's name and the entry. */
  lemma CallbackArgsOfBareKey(f: string, entry: Option<Entry>)
    requires f != "" && f != "callback" && f != "entry"
    ensures CallbackArgs([(f, Str(""))], entry) == [("callback", Str(f)), ("entry", EntryArg(entry))]
  {
    PutAfterOne(f, Str(""), "callback", Str(f));
    RemoveBareKey(f);
    PutAfterOne("callback", Str(f), "entry", EntryArg(entry));
  }

  lemma RemoveBareKey(f: string)
    requires f != "callback"
    ensures Remove([(f, Str("")), ("callback", Str(f))], f) == [("callback", Str(f))]
  {
    assert Remove([("callback", Str(f))], f) == [("callback", Str(f))] by {
      assert [("callback", Str(f))][1..] == [];
    }
    assert [(f, Str("")), ("callback", Str(f))][1..] == [("callback", Str(f))];
  }

  lemma RemoveCallback(entry: Option<Entry>, f: string)
    ensures Remove([("callback", Str(f)), ("entry", EntryArg(entry))], "callback") == [("entry", EntryArg(entry))]
  {
    var args := [("callback", Str(f)), ("entry", EntryArg(entry))];
    assert args[1..] == [("entry", EntryArg(entry))];
    assert Remove([("entry", EntryArg(entry))], "callback") == [("entry", EntryArg(entry))] by {
      assert [("entry", EntryArg(entry))][1..] == [];
    }
  }

  /**
   * `{callback:F}` calls `F` with the entry as the only argument when `F` is callable, and is `""`
   * otherwise.
   */
  lemma CallbackTag(t: string, f: string, entry: Option<Entry>, env: Env)
    requires f != "" && '&' !in f && '=' !in f && f != "callback" && f != "entry"
    ensures Resolve(TagMatch(t, "callback", f), entry, env) ==
            if f in env.callables then env.callables[f]([("entry", EntryArg(entry))]) else Scalar("")
  {
    CallbackResolve(t, f, entry, env);
    CallbackOfArgs(f, entry, env);
  }

  lemma CallbackResolve(t: string, f: string, entry: Option<Entry>, env: Env)
    requires f != "" && '&' !in f && '=' !in f && f != "callback" && f != "entry"
    ensures Resolve(TagMatch(t, "callback", f), entry, env)
         == CallbackValue([("callback", Str(f)), ("entry", EntryArg(entry))], env)
  {
    ResolveCallback(TagMatch(t, "callback", f), entry, env);
    BareKeyArgs(f, env);
    CallbackArgsOfBareKey(f, entry);
  }

  lemma ResolveCallback(m: TagMatch, entry: Option<Entry>, env: Env)
    requires m.kind == "callback"
    ensures Resolve(m, entry, env) == CallbackValue(CallbackArgs(TagArgs(m.args, env), entry), env)
  {
    KindsDiffer();
  }

  /** The tag types `Resolve` tells apart are different strings. */
  lemma KindsDiffer()
    ensures "callback" != "post" && "callback" != "post_meta" && "callback" != "custom_field"
    ensures "callback" != "entry" && "callback" != "entry_meta"
    ensures "entry_meta" != "post" && "entry_meta" != "post_meta" && "entry_meta" != "custom_field"
    ensures "entry_meta" != "entry"
    ensures "entry" != "post" && "entry" != "post_meta" && "entry" != "custom_field"
  {
  }

  lemma CallbackOfArgs(f: string, entry: Option<Entry>, env: Env)
    ensures CallbackValue([("callback", Str(f)), ("entry", EntryArg(entry))], env) ==
            if f in env.callables then env.callables[f]([("entry", EntryArg(entry))]) else Scalar("")
  {
    RemoveCallback(entry, f);
    assert ArgOr([("callback", Str(f)), ("entry", EntryArg(entry))], "callback") == Str(f);
  }

  // ---- the replacement loop -------------------------------------------------------------------

  /** What each tag found is replaced by. */
  type Valuer = TagMatch -> string

  /** The values `replace_merge_tags` gives the tags, for one entry. */
  function TagValuer(entry: Option<Entry>, env: Env): Valuer {
    m => TagValue(m, entry, env)
  }

  /** Each tag with the text it is replaced by. */
  function Pairs(ms: seq<TagMatch>, value: Valuer): (ps: seq<(string, string)>)
    ensures |ps| == |ms|
    ensures forall k :: 0 <= k < |ps| ==> ps[k] == (ms[k].text, value(ms[k]))
  {
    seq(|ms|, k requires 0 <= k < |ms| => (ms[k].text, value(ms[k])))
  }

  /** One scan and replace. */
  function Pass(s: string, value: Valuer): string {
    ReplaceEach(s, Pairs(TagMatches(s), value))
  }

  /**
   * Scan and replace until no tag is left, for at most `fuel` scans: the text reached, and whether
   * it is free of tags (the loop ran to completion).
   */
  function ReplaceLoop(s: string, value: Valuer, fuel: nat): (string, bool)
    decreases fuel
  {
    if |Scan(Tag, s, 0)| == 0 then (s, true)
    else if fuel == 0 then (s, false)
    else ReplaceLoop(Pass(s, value), value, fuel - 1)
  }

  /** A scan that finds tags replaces them and leaves one scan fewer for the rest. */
  lemma {:induction false} LoopStep(s: string, value: Valuer, rest: nat)
    requires |Scan(Tag, s, 0)| > 0
    ensures ReplaceLoop(s, value, rest + 1) == ReplaceLoop(Pass(s, value), value, rest)
  {
  }

  /** The loop reports completion exactly when the text it reaches holds no tag. */
  lemma {:induction false} LoopDone(s: string, value: Valuer, fuel: nat)
    ensures ReplaceLoop(s, value, fuel).1 <==> |Scan(Tag, ReplaceLoop(s, value, fuel).0, 0)| == 0
    decreases fuel
  {
    if |Scan(Tag, s, 0)| > 0 && fuel > 0 {
      var rest := fuel - 1;
      LoopDone(Pass(s, value), value, rest);
      LoopStep(s, value, rest);
    }
  }

  /** One turn of the loop keeps what the loop reaches from `text` with `fuel` scans. */
  lemma LoopKeeps(text: string, fuel: nat, s: string, value: Valuer, next: string, rest: nat)
    requires ReplaceLoop(s, value, rest + 1) == ReplaceLoop(text, value, fuel)
    requires |Scan(Tag, s, 0)| > 0 && next == Pass(s, value)
    ensures ReplaceLoop(next, value, rest) == ReplaceLoop(text, value, fuel)
  {
    LoopStep(s, value, rest);
  }

  lemma {:induction false} LoopOutOfFuel(s: string, value: Valuer)
    requires |Scan(Tag, s, 0)| > 0
    ensures ReplaceLoop(s, value, 0) == (s, false)
  {
  }

  /** The body of the `while`: every tag found replaced by its value, one after the other. */
  method ReplacePass(s: string, matches: seq<TagMatch>, value: Valuer) returns (t: string)
    ensures t == ReplaceEach(s, Pairs(matches, value))
  {
    ghost var pairs := Pairs(matches, value);
    t := s;
    var k := 0;
    while k < |matches|
      invariant 0 <= k <= |matches|
      invariant t == ReplaceEach(s, pairs[..k])
    {
      ReplaceEachPrefix(s, pairs, k);
      t := ReplaceAll(t, matches[k].text, value(matches[k]));
      k := k + 1;
    }
    assert pairs[..k] == pairs;
  }

  /** The `while` of `replace_merge_tags`, for at most `fuel` scans. */
  method RunLoop(text: string, value: Valuer, fuel: nat) returns (r: string, complete: bool)
    ensures (r, complete) == ReplaceLoop(text, value, fuel)
  {
    r := text;
    var left: nat := fuel;
    var matches := TagMatches(r);
    while |matches| > 0 && left > 0
      invariant matches == TagMatches(r)
      invariant ReplaceLoop(r, value, left) == ReplaceLoop(text, value, fuel)
      decreases left
    {
      ghost var prev := r;
      r := ReplacePass(r, matches, value);
      left := left - 1;
      LoopKeeps(text, fuel, prev, value, r, left);
      matches := TagMatches(r);
    }
    complete := |matches| == 0;
  }

  /**
   * `replace_merge_tags($text, $form, $entry)`, with the re-scan loop cut after `fuel` scans:
   * `complete` says the loop ended because no tag was left, and then none is.
   */
  method ReplaceMergeTags(text: string, entry: Option<Entry>, env: Env, fuel: nat) returns (r: string, complete: bool)
    ensures (r, complete) == ReplaceLoop(text, TagValuer(KnownEntry(entry), env), fuel)
    ensures complete ==> forall i, e :: 0 <= i < e <= |r| ==> !IsTagText(r[i..e])
  {
    r, complete := RunLoop(text, TagValuer(KnownEntry(entry), env), fuel);
    LoopDone(text, TagValuer(KnownEntry(entry), env), fuel);
    if complete {
      NoTagText(r);
    }
  }

  /** Text in which the scanner finds no tag has no substring of the shape of a tag. */
  lemma NoTagText(s: string)
    requires |TagMatches(s)| == 0
    ensures forall i, e :: 0 <= i < e <= |s| ==> !IsTagText(s[i..e])
  {
    TagMatchesEmpty(s);
    forall i, e | 0 <= i < e <= |s|
      ensures !IsTagText(s[i..e])
    {
      TagAtIff(s, i, e);
    }
  }

  /** One scan with values free of `{` removes at least one `{` from a text holding a tag. */
  lemma PassRemovesBrace(s: string, value: Valuer)
    requires forall m :: '{' !in value(m)
    requires |TagMatches(s)| > 0
    ensures CountChar('{', Pass(s, value)) < CountChar('{', s)
  {
    var ms := TagMatches(s);
    var pairs := Pairs(ms, value);
    forall k | 0 <= k < |pairs|
      ensures CountChar('{', pairs[k].0) == 1 && CountChar('{', pairs[k].1) == 0
    {
      TagMatchInText(s, k);
      assert '{' !in value(ms[k]);
    }
    TagMatchInText(s, 0);
    ReplaceEachCount('{', s, pairs);
  }

  /**
   * The loop ends without running out of scans when the fuel covers the `{` of the text and no tag
   * is replaced by text holding a `{`: every scan then removes at least one `{`.
   */
  lemma {:induction false} EnoughFuel(s: string, value: Valuer, fuel: nat)
    requires forall m :: '{' !in value(m)
    requires fuel >= CountChar('{', s)
    ensures ReplaceLoop(s, value, fuel).1
    decreases fuel
  {
    if |Scan(Tag, s, 0)| > 0 {
      PassRemovesBrace(s, value);
      var rest := fuel - 1;
      EnoughFuel(Pass(s, value), value, rest);
      LoopStep(s, value, rest);
    }
  }

  // ---- {get:name} -----------------------------------------------------------------------------

  /** A `{get:name}` match and the request parameter it stands for. */
  function GetVarPair(s: string, sp: Span, get: map<string, string>): (string, string)
    requires MatchAt(GetVar, s, sp.start) == Some(sp.end)
  {
    var name := s[sp.start + 5..sp.end - 1];
    (s[sp.start..sp.end], if name in get then get[name] else "")
  }

  function GetVarPairs(s: string, get: map<string, string>): (ps: seq<(string, string)>)
    ensures |ps| == |Scan(GetVar, s, 0)|
  {
    var spans := Scan(GetVar, s, 0);
    seq(|spans|, k requires 0 <= k < |spans| => GetVarPair(s, spans[k], get))
  }

  /** Every `{get:name}` replaced by the parameter `name`, `""` when absent. */
  function GetVariablesReplaced(s: string, get: map<string, string>): string {
    ReplaceEach(s, GetVarPairs(s, get))
  }

  /**
   * `replace_get_variables($text, …, $get)`, without the filters, URL encoding and HTML escaping:
   * the parameters come from `get`, or from the query when it is not given.
   */
  method ReplaceGetVariables(text: string, get: Option<map<string, string>>, env: Env) returns (r: string)
    ensures r == GetVariablesReplaced(text, get.GetOr(env.query))
    ensures (forall j :: GetVarAt(text, j).None?) ==> r == text
  {
    var params := get.GetOr(env.query);
    var spans := Scan(GetVar, text, 0);
    if |spans| == 0 {
      return text;
    }
    assert GetVarAt(text, spans[0].start).Some? by {
      assert MatchAt(GetVar, text, spans[0].start).Some?;
    }
    r := ReplaceGetMatches(text, spans, params);
  }

  /** The `foreach` of `replace_get_variables`: each match replaced in turn by its parameter. */
  method ReplaceGetMatches(text: string, spans: seq<Span>, params: map<string, string>) returns (r: string)
    requires spans == Scan(GetVar, text, 0)
    ensures r == GetVariablesReplaced(text, params)
  {
    ghost var pairs := GetVarPairs(text, params);
    r := text;
    for k := 0 to |spans|
      invariant r == ReplaceEach(text, pairs[..k])
    {
      var (search, value) := GetVarPair(text, spans[k], params);
      assert pairs[k] == (search, value);
      ReplaceEachPrefix(text, pairs, k);
      r := ReplaceAll(r, search, value);
    }
    assert pairs[..|spans|] == pairs;
  }

  /** A text that is exactly `{get:name}` becomes the parameter `name`. */
  lemma GetVariableWhole(name: string, get: map<string, string>)
    requires '}' !in name
    ensures GetVariablesReplaced("{get:" + name + "}", get) == if name in get then get[name] else ""
  {
    var t := "{get:" + name + "}";
    var v := if name in get then get[name] else "";
    assert forall k :: 5 <= k < |t| - 1 ==> t[k] == name[k - 5];
    CloseBraceAt(t, 5, |t| - 1);
    ScanWhole(GetVar, t);
    assert t[5..|t| - 1] == name && t[0..|t|] == t;
    assert GetVarPairs(t, get) == [(t, v)] by {
      assert GetVarPair(t, Span(0, |t|), get) == (t, v);
    }
    ReplaceWhole(t, v);
    ReplaceEachSingle(t, (t, v));
  }
}
