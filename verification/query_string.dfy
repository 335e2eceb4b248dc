/**
 * `parse_str` on the argument block of a merge tag. The block admits neither `%`, `+`, `.`, `[`
 * nor spaces, so no percent-decoding or key mangling applies: pieces are cut at `&`, each piece at
 * its first `=`, pieces with an empty key are dropped and a repeated key overwrites the earlier value
 * where it stands.
 */
module QueryString {
  import opened Options
  import opened Strings
  import opened Host

  /** A piece `key=value` (or a bare `key`, whose value is empty). */
  function ParsePiece(p: string): (kv: (string, string))
  {
    match Find(p, "=", 0)
    case Some(k) => (p[..k], p[k + 1..])
    case None => (p, "")
  }

  /** Adds the pieces to `acc` one after the other. */
  function AddPieces(acc: Args, pieces: seq<string>): Args
    decreases |pieces|
  {
    if pieces == [] then acc
    else
      var kv := ParsePiece(pieces[0]);
      AddPieces(if kv.0 == "" then acc else Put(acc, kv.0, Str(kv.1)), pieces[1..])
  }

  /** `parse_str($s, $args)`. */
  function ParseQuery(s: string): Args {
    AddPieces([], Explode(s, "&"))
  }

  /** A piece read back: a key without `=`, then `=`, then the value. */
  lemma ParsePieceOf(k: string, v: string)
    requires '=' !in k
    ensures ParsePiece(k + "=" + v) == (k, v)
  {
    FindCharAfter(k, '=', v);
    assert (k + "=" + v)[..|k|] == k;
    assert (k + "=" + v)[|k| + 1..] == v;
  }

  /** The key-value list a well-formed query string is made of. */
  predicate WellFormedPairs(kvs: seq<(string, string)>) {
    (forall i :: 0 <= i < |kvs| ==> kvs[i].0 != "" && '&' !in kvs[i].0 && '=' !in kvs[i].0 && '&' !in kvs[i].1) &&
    (forall i, j :: 0 <= i < j < |kvs| ==> kvs[i].0 != kvs[j].0)
  }

  function Pieces(kvs: seq<(string, string)>): (ps: seq<string>)
    ensures |ps| == |kvs| && forall i :: 0 <= i < |kvs| ==> ps[i] == kvs[i].0 + "=" + kvs[i].1
  {
    seq(|kvs|, i requires 0 <= i < |kvs| => kvs[i].0 + "=" + kvs[i].1)
  }

  function AsArgs(kvs: seq<(string, string)>): (a: Args)
    ensures |a| == |kvs| && forall i :: 0 <= i < |kvs| ==> a[i] == (kvs[i].0, Str(kvs[i].1))
  {
    seq(|kvs|, i requires 0 <= i < |kvs| => (kvs[i].0, Str(kvs[i].1)))
  }

  /** Adding the first piece to an array without its key appends it. */
  lemma AddPiecesStep(acc: Args, kvs: seq<(string, string)>)
    requires |kvs| >= 1 && kvs[0].0 != "" && '=' !in kvs[0].0 && Get(acc, kvs[0].0).None?
    ensures AddPieces(acc, Pieces(kvs)) == AddPieces(acc + [(kvs[0].0, Str(kvs[0].1))], Pieces(kvs[1..]))
  {
    ParsePieceOf(kvs[0].0, kvs[0].1);
    assert Pieces(kvs)[1..] == Pieces(kvs[1..]);
  }

  lemma FreshAfterAppend(acc: Args, kvs: seq<(string, string)>)
    requires |kvs| >= 1 && WellFormedPairs(kvs)
    requires forall i :: 0 <= i < |kvs| ==> Get(acc, kvs[i].0).None?
    ensures forall i :: 0 <= i < |kvs| - 1 ==> Get(acc + [(kvs[0].0, Str(kvs[0].1))], kvs[1..][i].0).None?
  {
    var acc' := acc + [(kvs[0].0, Str(kvs[0].1))];
    forall i | 0 <= i < |kvs| - 1
      ensures Get(acc', kvs[1..][i].0).None?
    {
      var k2 := kvs[i + 1].0;
      assert k2 != kvs[0].0;
      assert Get(acc, k2).None?;
      assert forall j :: 0 <= j < |acc'| ==> acc'[j].0 != k2;
    }
  }

  lemma {:induction false} AddPiecesFresh(acc: Args, kvs: seq<(string, string)>)
    requires WellFormedPairs(kvs)
    requires forall i :: 0 <= i < |kvs| ==> Get(acc, kvs[i].0).None?
    ensures AddPieces(acc, Pieces(kvs)) == acc + AsArgs(kvs)
    decreases |kvs|
  {
    if kvs != [] {
      var acc' := acc + [(kvs[0].0, Str(kvs[0].1))];
      AddPiecesStep(acc, kvs);
      FreshAfterAppend(acc, kvs);
      WellFormedTail(kvs);
      AddPiecesFresh(acc', kvs[1..]);
      AsArgsCons(kvs);
      AppendOneThen(acc, (kvs[0].0, Str(kvs[0].1)), AsArgs(kvs[1..]));
    }
  }

  lemma AppendOneThen(acc: Args, x: (string, ArgVal), rest: Args)
    ensures acc + [x] + rest == acc + ([x] + rest)
  {
  }

  lemma WellFormedTail(kvs: seq<(string, string)>)
    requires |kvs| >= 1 && WellFormedPairs(kvs)
    ensures WellFormedPairs(kvs[1..])
  {
    var rest := kvs[1..];
    forall i, j | 0 <= i < j < |rest|
      ensures rest[i].0 != rest[j].0
    {
      assert rest[i] == kvs[i + 1] && rest[j] == kvs[j + 1];
    }
  }

  lemma AsArgsCons(kvs: seq<(string, string)>)
    requires |kvs| >= 1
    ensures AsArgs(kvs) == [(kvs[0].0, Str(kvs[0].1))] + AsArgs(kvs[1..])
  {
  }

  /**
   * Joining distinct, non-empty keys with their values as `k1=v1&k2=v2…` and parsing the result
   * gives the same keys and values, in the same order.
   */
  lemma ParseQueryOfPairs(kvs: seq<(string, string)>)
    requires |kvs| >= 1 && WellFormedPairs(kvs)
    ensures ParseQuery(Implode("&", Pieces(kvs))) == AsArgs(kvs)
  {
    var ps := Pieces(kvs);
    forall i | 0 <= i < |ps|
      ensures '&' !in ps[i]
    {
      assert ps[i] == kvs[i].0 + "=" + kvs[i].1;
    }
    ImplodeExplode('&', ps);
    AddPiecesFresh([], kvs);
  }

  /** A block that is a single bare key parses to that key with an empty value. */
  lemma ParseBareKey(k: string)
    requires k != "" && '&' !in k && '=' !in k
    ensures ParseQuery(k) == [(k, Str(""))]
  {
    FindCharNone(k, '&');
    assert Explode(k, "&") == [k];
    FindCharNone(k, '=');
    assert ParsePiece(k) == (k, "");
    assert [k][1..] == [];
    assert Put([], k, Str("")) == [(k, Str(""))];
    assert AddPieces([], [k]) == AddPieces([(k, Str(""))], []);
  }
}
