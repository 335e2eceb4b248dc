/**
 * What the merge-tag code reads from WordPress and Gravity Forms, as plain values: the request
 * parameters, posts and their meta, entries and their meta, and the host functions it calls
 * (encryption, merge-tag lists of fields, labels, forms, variable replacement). Also the PHP arrays
 * with string keys that carry the arguments of a merge tag.
 */
module Host {
  import opened Options
  import opened Php
  import opened Forms

  /** A Gravity Forms entry: field and property names to values. */
  type Entry = map<string, string>

  /** A value a lookup yields: a scalar (as PHP would print it), or an array or object. */
  datatype Value = Scalar(text: string) | Composite

  /** A value in a merge tag's argument array: a string, `null`, or an entry array. */
  datatype ArgVal = Str(s: string) | NullVal | EntryVal(e: Entry)

  /** A PHP array with string keys, in insertion order. */
  type Args = seq<(string, ArgVal)>

  datatype Env = Env(
    query: map<string, string>,                          // $_GET
    postData: map<string, string>,                       // $_POST
    currentPost: Option<string>,                         // ID of the post `get_post()` returns
    posts: map<string, map<string, Value>>,              // `get_post`: post ID to its properties
    postMeta: map<(string, string), Value>,              // `get_post_meta($id, $key, true)`
    entries: map<string, Entry>,                         // `GFAPI::get_entry` / `GFFormsModel::get_lead`
    entryMeta: map<(string, string), Value>,             // `gform_get_meta($id, $key)`
    callables: map<string, Args -> Value>,               // callable names and what calling them returns
    decryptHook: Option<string -> string>,               // `gw_post_content_merge_tags()->maybe_decrypt_entry_id`
    decrypt: Option<string -> string>,                   // `GFCommon::openssl_decrypt`, when callable
    encrypt: Option<string -> string>,                   // `rawurlencode(GFCommon::openssl_encrypt(..))`, when callable
    mergeTagsOf: FieldDef -> seq<string>,                // `GFCommon::get_field_merge_tags`, the `tag` of each
    labelOf: (FieldDef, Option<string>) -> string,       // `GFFormsModel::get_label($field, $input_id)`
    formMeta: string -> Form,                            // `GFFormsModel::get_form_meta`
    replaceVariables: (string, Form, Entry) -> string)   // `GFCommon::replace_variables`

  /** `rgget($name)`: the query parameter, `""` when absent. */
  function Query(env: Env, name: string): string {
    if name in env.query then env.query[name] else ""
  }

  /** `rgpost($name)`: the POST parameter, `""` when absent. */
  function PostParam(env: Env, name: string): string {
    if name in env.postData then env.postData[name] else ""
  }

  /** `get_post_meta($id, $key, true)`: `""` when there is no such meta. */
  function PostMeta(env: Env, id: string, key: string): Value {
    if (id, key) in env.postMeta then env.postMeta[(id, key)] else Scalar("")
  }

  /** The entry with this id, or the empty array when there is none. */
  function LookupEntry(env: Env, id: string): Entry {
    if id in env.entries then env.entries[id] else map[]
  }

  /** `rgar($entry, $name)`: the entry's value, `""` when absent. */
  function EntryField(e: Entry, name: string): string {
    if name in e then e[name] else ""
  }

  /** The meta value as an entry id; an array is taken as no id. */
  function MetaText(v: Value): string {
    match v
    case Scalar(t) => t
    case Composite => ""
  }

  /** The `_gform-entry-id` meta of the current post (`get_post()`), when it is truthy. */
  function PostEntryId(env: Env): (r: Option<string>)
    ensures r.Some? <==>
      env.currentPost.Some? && Truthy(MetaText(PostMeta(env, env.currentPost.value, "_gform-entry-id")))
    ensures r.Some? ==> r.value == MetaText(PostMeta(env, env.currentPost.value, "_gform-entry-id"))
  {
    match env.currentPost
    case None => None
    case Some(post) =>
      var meta := MetaText(PostMeta(env, post, "_gform-entry-id"));
      if Truthy(meta) then Some(meta) else None
  }

  // ---- argument arrays --------------------------------------------------------------------------

  /** `$args[$k]`, if set. */
  function Get(args: Args, k: string): (r: Option<ArgVal>)
    ensures r.None? <==> forall j :: 0 <= j < |args| ==> args[j].0 != k
    ensures r.Some? ==> exists j :: 0 <= j < |args| && args[j] == (k, r.value)
    decreases |args|
  {
    if args == [] then None else if args[0].0 == k then Some(args[0].1) else Get(args[1..], k)
  }

  predicate DistinctKeys(args: Args) {
    forall a, b :: 0 <= a < b < |args| ==> args[a].0 != args[b].0
  }

  /** `$args[$k] = $v`: overwritten in place when the key is set, appended otherwise. */
  function Put(args: Args, k: string, v: ArgVal): (r: Args)
    ensures Get(r, k) == Some(v)
    ensures forall k2 :: k2 != k ==> Get(r, k2) == Get(args, k2)
    ensures |r| == if Get(args, k).Some? then |args| else |args| + 1
    ensures Get(args, k).None? ==> r == args + [(k, v)]
    ensures |args| > 0 ==> r[0].0 == args[0].0
    decreases |args|
  {
    if args == [] then [(k, v)]
    else if args[0].0 == k then [(k, v)] + args[1..]
    else [args[0]] + Put(args[1..], k, v)
  }

  /** Setting a new key on a one-entry array appends it. */
  lemma PutAfterOne(a: string, va: ArgVal, k: string, v: ArgVal)
    requires a != k
    ensures Put([(a, va)], k, v) == [(a, va), (k, v)]
  {
    assert [(a, va)][1..] == [];
  }

  /** `unset($args[$k])`. */
  function Remove(args: Args, k: string): (r: Args)
    ensures Get(r, k).None?
    ensures forall k2 :: k2 != k ==> Get(r, k2) == Get(args, k2)
    decreases |args|
  {
    if args == [] then []
    else if args[0].0 == k then Remove(args[1..], k)
    else [args[0]] + Remove(args[1..], k)
  }

  /** `unset` keeps the order of the remaining pairs: those of `a` before those of `b`. */
  lemma {:induction false} RemoveAppend(a: Args, b: Args, k: string)
    ensures Remove(a + b, k) == Remove(a, k) + Remove(b, k)
    decreases |a|
  {
    if a == [] {
      assert a + b == b;
    } else {
      assert (a + b)[0] == a[0] && (a + b)[1..] == a[1..] + b;
      RemoveAppend(a[1..], b, k);
    }
  }

  /** `key($args)` on a fresh array: its first key. */
  function FirstKey(args: Args): Option<string> {
    if args == [] then None else Some(args[0].0)
  }

  /** PHP truthiness of an argument value. */
  predicate ArgTruthy(v: ArgVal) {
    match v
    case Str(s) => Truthy(s)
    case NullVal => false
    case EntryVal(e) => |e| > 0
  }

  /** An argument value used as a string. */
  function ArgText(v: ArgVal): string {
    match v
    case Str(s) => s
    case NullVal => ""
    case EntryVal(_) => "Array"
  }

  /** The variable `extract(wp_parse_args($args, [$k => false]))` defines: the argument, or `false`. */
  function ArgOr(args: Args, k: string): ArgVal {
    match Get(args, k)
    case Some(v) => v
    case None => NullVal
  }
}
