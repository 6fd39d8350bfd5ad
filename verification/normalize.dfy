/** The domain-list and URL-signature normalizers of background/helpers.js (and
    their twins in background.js). A URL is taken already parsed: `None` when the
    URL constructor would throw, otherwise its host name, path and the decoded
    query pairs in order. */
module Normalize {
  import opened Optional
  import opened Strings

  datatype ParsedUrl = ParsedUrl(host: string, path: string, query: seq<(string, string)>)

  /** The query parameters that distinguish one allowed page from another, in
      priority order. */
  const QUERY_KEYS: seq<string> := ["q", "query", "search", "keywords"]

  const SIG_SEP: char := '|'

  // ---------------------------------------------------------------- domain lists

  /** One entry as `sanitizeDomainList` cleans it: `(item || '').toLowerCase().trim()`.
      The result is the lower-cased piece of `item` left when the white space at
      both ends is cut; an entry that is already clean is kept as it is, and
      cleaning the result again changes nothing. */
  function CleanEntry(item: string): (r: string)
    ensures IsLowerCase(r) && IsTrimmed(r)
    ensures Trim(Lower(r)) == r
    ensures exists a, b :: LoweredPiece(item, r, a, b)
    ensures IsLowerCase(item) && IsTrimmed(item) ==> r == item
  {
    TrimLowerFixedPoint(item);
    LowerOfLowerCase(Trim(Lower(item)));
    TrimLowerIsPiece(item);
    TrimLowerOfClean(item);
    Trim(Lower(item))
  }

  function CleanAll(list: seq<string>): (r: seq<string>)
    ensures |r| == |list|
    ensures forall i :: 0 <= i < |list| ==> r[i] == CleanEntry(list[i])
  {
    seq(|list|, i requires 0 <= i < |list| => CleanEntry(list[i]))
  }

  /** `sanitizeDomainList(list)`: cleaned, non-empty, each entry once. */
  function SanitizeDomainList(list: seq<string>): (r: seq<string>)
    ensures NoDuplicates(r)
    ensures forall x :: x in r ==> x != "" && IsLowerCase(x) && IsTrimmed(x)
    ensures forall x :: x in r <==> x != "" && exists i :: 0 <= i < |list| && CleanEntry(list[i]) == x
  {
    var cleaned := CleanAll(list);
    MapMembers(list, cleaned, CleanEntry);
    Dedup(DropEmpty(cleaned))
  }

  lemma {:induction false} DropEmptyOfNonEmpty(xs: seq<string>)
    requires forall x :: x in xs ==> x != ""
    ensures DropEmpty(xs) == xs
    decreases |xs|
  {
    if |xs| > 0 {
      assert xs[0] in xs;
      assert forall x :: x in xs[1..] ==> x in xs;
      DropEmptyOfNonEmpty(xs[1..]);
      assert [xs[0]] + xs[1..] == xs;
    }
  }

  /** Sanitizing an already sanitized list changes nothing. */
  lemma SanitizeIdempotent(list: seq<string>)
    ensures SanitizeDomainList(SanitizeDomainList(list)) == SanitizeDomainList(list)
  {
    var r := SanitizeDomainList(list);
    var cleaned := CleanAll(r);
    forall i | 0 <= i < |r| ensures cleaned[i] == r[i] {
      assert r[i] in r;
      LowerOfLowerCase(r[i]);
      TrimOfTrimmed(r[i]);
    }
    assert cleaned == r;
    DropEmptyOfNonEmpty(r);
    DedupOfDistinct(r);
  }

  // ---------------------------------------------------------------- URL signatures

  /** `pathname.replace(/\/+$/, '')` */
  function StripTrailingSlashes(p: string): (r: string)
    ensures |r| <= |p| && r == p[..|r|]
    ensures |r| == 0 || r[|r| - 1] != '/'
    ensures forall i :: |r| <= i < |p| ==> p[i] == '/'
    decreases |p|
  {
    if |p| > 0 && p[|p| - 1] == '/' then StripTrailingSlashes(p[..|p| - 1]) else p
  }

  /** The path part of a signature: trailing slashes stripped, `/` if nothing is left. */
  function PathSignature(p: string): (r: string)
    ensures r != ""
    ensures r == "/" || r[|r| - 1] != '/'
    ensures forall c :: c in r ==> c in p || c == '/'
    ensures (forall i :: 0 <= i < |p| ==> p[i] == '/') <==> r == "/"
    ensures (exists i :: 0 <= i < |p| && p[i] != '/') ==> r == StripTrailingSlashes(p)
  {
    var t := StripTrailingSlashes(p);
    if t == "" then "/" else t
  }

  /** `params.get(key)`: the first value given for `key`, if any. */
  function QueryGet(q: seq<(string, string)>, key: string): (r: Option<string>)
    ensures r.Some? <==> exists i :: 0 <= i < |q| && q[i].0 == key
    ensures r.Some? ==> exists i :: 0 <= i < |q| && q[i] == (key, r.value) && FirstWithKey(q, key, i)
    decreases |q|
  {
    if |q| == 0 then None
    else if q[0].0 == key then Some(q[0].1)
    else
      var r := QueryGet(q[1..], key);
      if r.Some? then FirstPairShift(q, key, r.value); r else r
  }

  /** No pair before index `i` has the key. */
  predicate FirstWithKey(q: seq<(string, string)>, key: string, i: nat) {
    forall j :: 0 <= j < i && j < |q| ==> q[j].0 != key
  }

  /** The first pair for a key in the tail is the first in the whole query when
      the head has another key. */
  lemma FirstPairShift(q: seq<(string, string)>, key: string, v: string)
    requires |q| > 0 && q[0].0 != key
    requires exists i :: 0 <= i < |q[1..]| && q[1..][i] == (key, v) && FirstWithKey(q[1..], key, i)
    ensures exists i :: 0 <= i < |q| && q[i] == (key, v) && FirstWithKey(q, key, i)
  {
    var i :| 0 <= i < |q[1..]| && q[1..][i] == (key, v) && FirstWithKey(q[1..], key, i);
    assert q[i + 1] == q[1..][i];
    forall j | 0 <= j < i + 1 && j < |q|
      ensures q[j].0 != key
    {
      if j > 0 {
        assert q[j] == q[1..][j - 1];
      }
    }
  }

  /** The usable value of `key`: present and non-blank after `trim().toLowerCase()`. */
  function QueryValue(q: seq<(string, string)>, key: string): Option<string> {
    match QueryGet(q, key)
    case None => None
    case Some(v) =>
      var t := Lower(Trim(v));
      if t == "" then None else Some(t)
  }

  /** The first key of `keys` with a usable value, with that value: the chosen
      key has that value, and no key with a usable value comes before it. */
  function FirstQueryMatch(q: seq<(string, string)>, keys: seq<string>): (r: Option<(string, string)>)
    ensures r.Some? ==> r.value.0 in keys && QueryValue(q, r.value.0) == Some(r.value.1)
    ensures forall i :: 0 <= i < |keys| && QueryValue(q, keys[i]).Some? ==> r.Some? && r.value.0 in keys[..i + 1]
    decreases |keys|
  {
    if |keys| == 0 then None
    else match QueryValue(q, keys[0])
      case Some(v) => Some((keys[0], v))
      case None =>
        var r := FirstQueryMatch(q, keys[1..]);
        forall i | 0 <= i < |keys| && QueryValue(q, keys[i]).Some?
          ensures r.Some? && r.value.0 in keys[..i + 1]
        {
          assert i != 0;
          assert keys[1..][i - 1] == keys[i];
          InShiftedPrefix(keys, i, r.value.0);
        }
        r
  }

  /** A member of the first `i` keys after the head is among the first `i + 1` keys. */
  lemma InShiftedPrefix(keys: seq<string>, i: nat, x: string)
    requires 1 <= i < |keys| && x in keys[1..][..i]
    ensures x in keys[..i + 1]
  {
    var j :| 0 <= j < i && keys[1..][..i][j] == x;
    assert keys[..i + 1][j + 1] == x;
  }

  /** `host|path` or `host|path|key|value` */
  function Signature(host: string, path: string, m: Option<(string, string)>): string {
    match m
    case None => host + [SIG_SEP] + path
    case Some(kv) => host + [SIG_SEP] + path + [SIG_SEP] + kv.0 + [SIG_SEP] + kv.1
  }

  /** `normalizeUrlForAllowList(url)`: `null` for an unparsable URL; otherwise the
      lower-cased host, the path without trailing slashes, and the first recognised
      query parameter with a usable value. */
  function NormalizeUrlForAllowList(u: Option<ParsedUrl>): (r: Option<string>)
    ensures r.None? <==> u.None?
    ensures r.Some? ==> SIG_SEP in r.value
  {
    match u
    case None => None
    case Some(p) =>
      var sig := Signature(Lower(p.host), PathSignature(p.path), FirstQueryMatch(p.query, QUERY_KEYS));
      assert sig[|Lower(p.host)|] == SIG_SEP;
      Some(sig)
  }

  /** A signature taken apart again (the `split('|')` the options page performs). */
  datatype SignatureParts = SignatureParts(host: string, path: string, query: Option<(string, string)>)

  function ParseSignature(sig: string): Option<SignatureParts> {
    var parts := Split(sig, {SIG_SEP});
    if |parts| == 2 then Some(SignatureParts(parts[0], parts[1], None))
    else if |parts| == 4 then Some(SignatureParts(parts[0], parts[1], Some((parts[2], parts[3]))))
    else None
  }

  lemma LowerKeepsAbsent(s: string, c: char)
    requires c !in s && !IsLowerChar(c)
    ensures c !in Lower(s)
  {
    forall i | 0 <= i < |s| ensures Lower(s)[i] != c {
      assert s[i] != c;
    }
  }

  /** A signature built from `|`-free parts splits back into those parts. */
  lemma SignatureSplits(host: string, path: string, m: Option<(string, string)>)
    requires SIG_SEP !in host && SIG_SEP !in path
    requires m.Some? ==> SIG_SEP !in m.value.0 && SIG_SEP !in m.value.1
    ensures ParseSignature(Signature(host, path, m)) == Some(SignatureParts(host, path, m))
  {
    match m
    case None =>
      assert Signature(host, path, m) == Join([host, path], [SIG_SEP]);
      SplitJoin([host, path], SIG_SEP, {SIG_SEP});
    case Some(kv) =>
      var parts := [host, path, kv.0, kv.1];
      assert Join(parts[3..], [SIG_SEP]) == kv.1;
      assert Join(parts[2..], [SIG_SEP]) == kv.0 + [SIG_SEP] + kv.1 by {
        assert parts[2..][1..] == parts[3..];
      }
      assert Join(parts[1..], [SIG_SEP]) == path + [SIG_SEP] + kv.0 + [SIG_SEP] + kv.1 by {
        assert parts[1..][1..] == parts[2..];
      }
      assert Signature(host, path, m) == Join(parts, [SIG_SEP]);
      SplitJoin([host, path, kv.0, kv.1], SIG_SEP, {SIG_SEP});
  }

  /** A usable query value never holds a `|` unless the raw value did. */
  lemma QueryValueKeepsAbsent(q: seq<(string, string)>, key: string)
    requires forall i :: 0 <= i < |q| ==> SIG_SEP !in q[i].1
    requires QueryValue(q, key).Some?
    ensures SIG_SEP !in QueryValue(q, key).value
  {
    QueryGetFrom(q, key);
    var v := QueryGet(q, key).value;
    assert SIG_SEP !in v;
    assert SIG_SEP !in Trim(v);
    LowerKeepsAbsent(Trim(v), SIG_SEP);
  }

  lemma QueryKeysHaveNoSep(k: string)
    requires k in QUERY_KEYS
    ensures SIG_SEP !in k
  {
  }

  /** Signatures decode: when no component holds a `|`, splitting the signature
      recovers the lower-cased host, the normalized path and the chosen query pair. */
  lemma SignatureRoundTrip(p: ParsedUrl)
    requires SIG_SEP !in p.host && SIG_SEP !in p.path
    requires forall i :: 0 <= i < |p.query| ==> SIG_SEP !in p.query[i].1
    ensures ParseSignature(NormalizeUrlForAllowList(Some(p)).value) ==
      Some(SignatureParts(Lower(p.host), PathSignature(p.path), FirstQueryMatch(p.query, QUERY_KEYS)))
  {
    LowerKeepsAbsent(p.host, SIG_SEP);
    var m := FirstQueryMatch(p.query, QUERY_KEYS);
    assert NormalizeUrlForAllowList(Some(p)).value == Signature(Lower(p.host), PathSignature(p.path), m);
    assert SIG_SEP !in PathSignature(p.path);
    if m.Some? {
      QueryValueKeepsAbsent(p.query, m.value.0);
      QueryKeysHaveNoSep(m.value.0);
    }
    SignatureSplits(Lower(p.host), PathSignature(p.path), m);
  }

  /** The value `params.get` returns is one of the query's values. */
  lemma {:induction false} QueryGetFrom(q: seq<(string, string)>, key: string)
    requires QueryGet(q, key).Some?
    ensures exists i :: 0 <= i < |q| && q[i] == (key, QueryGet(q, key).value)
    decreases |q|
  {
    if q[0].0 != key {
      QueryGetFrom(q[1..], key);
      var i :| 0 <= i < |q[1..]| && q[1..][i] == (key, QueryGet(q[1..], key).value);
      assert q[i + 1] == q[1..][i];
    }
  }

  /** The key choice depends only on each recognised key's usable value. */
  lemma {:induction false} FirstQueryMatchCongruent(q1: seq<(string, string)>, q2: seq<(string, string)>, keys: seq<string>)
    requires forall i :: 0 <= i < |keys| ==> QueryValue(q1, keys[i]) == QueryValue(q2, keys[i])
    ensures FirstQueryMatch(q1, keys) == FirstQueryMatch(q2, keys)
    decreases |keys|
  {
    if |keys| > 0 {
      FirstQueryMatchCongruent(q1, q2, keys[1..]);
    }
  }

  /** Two URLs with the same host up to case, the same path up to trailing slashes
      and the same recognised query values up to case and surrounding white space
      share one signature. */
  lemma SignatureInsensitive(p1: ParsedUrl, p2: ParsedUrl)
    requires Lower(p1.host) == Lower(p2.host)
    requires StripTrailingSlashes(p1.path) == StripTrailingSlashes(p2.path)
    requires forall i :: 0 <= i < |QUERY_KEYS| ==> QueryValue(p1.query, QUERY_KEYS[i]) == QueryValue(p2.query, QUERY_KEYS[i])
    ensures NormalizeUrlForAllowList(Some(p1)) == NormalizeUrlForAllowList(Some(p2))
  {
    FirstQueryMatchCongruent(p1.query, p2.query, QUERY_KEYS);
  }

  // ---------------------------------------------------------------- stored signatures

  /** What one stored entry contributes in `loadAllowedUrlSignatures`: nothing if it
      is empty; itself if it already holds a `|`; otherwise its normalized signature
      unless that is missing or empty. */
  function Migrate(entry: string, normalizer: string -> Option<string>): (r: seq<string>)
    ensures forall s :: s in r ==> s != ""
    ensures entry == "" ==> r == []
    ensures SIG_SEP in entry ==> r == [entry]
    ensures entry != "" && SIG_SEP !in entry ==>
      r == (if normalizer(entry).Some? && normalizer(entry).value != "" then [normalizer(entry).value] else [])
  {
    if entry == "" then []
    else if SIG_SEP in entry then [entry]
    else match normalizer(entry)
      case Some(m) => if m == "" then [] else [m]
      case None => []
  }

  function MigrateAll(raw: seq<string>, normalizer: string -> Option<string>): (r: seq<string>)
    ensures forall s :: s in r <==> exists i :: 0 <= i < |raw| && s in Migrate(raw[i], normalizer)
    decreases |raw|
  {
    if |raw| == 0 then []
    else
      var rest := MigrateAll(raw[1..], normalizer);
      assert forall s :: (exists i :: 0 <= i < |raw| && s in Migrate(raw[i], normalizer))
                          <==> s in Migrate(raw[0], normalizer)
                               || exists i :: 0 <= i < |raw[1..]| && s in Migrate(raw[1..][i], normalizer) by {
        forall s ensures (exists i :: 0 <= i < |raw| && s in Migrate(raw[i], normalizer))
                          <==> s in Migrate(raw[0], normalizer)
                               || exists i :: 0 <= i < |raw[1..]| && s in Migrate(raw[1..][i], normalizer) {
          if exists i :: 0 <= i < |raw| && s in Migrate(raw[i], normalizer) {
            var i :| 0 <= i < |raw| && s in Migrate(raw[i], normalizer);
            if i > 0 {
              assert raw[1..][i - 1] == raw[i];
            }
          }
          if exists i :: 0 <= i < |raw[1..]| && s in Migrate(raw[1..][i], normalizer) {
            var i :| 0 <= i < |raw[1..]| && s in Migrate(raw[1..][i], normalizer);
            assert raw[i + 1] == raw[1..][i];
          }
        }
      }
      Migrate(raw[0], normalizer) + rest
  }

  /** `loadAllowedUrlSignatures(rawList, normalizer)`: every entry migrated, each
      signature once. */
  function LoadAllowedUrlSignatures(raw: seq<string>, normalizer: string -> Option<string>): (r: seq<string>)
    ensures NoDuplicates(r)
    ensures forall s :: s in r <==> exists i :: 0 <= i < |raw| && s in Migrate(raw[i], normalizer)
    ensures forall i :: 0 <= i < |raw| && SIG_SEP in raw[i] ==> raw[i] in r
    ensures forall s :: s in r ==> s != ""
  {
    Dedup(MigrateAll(raw, normalizer))
  }

  lemma {:induction false} MigrateAllOfSignatures(xs: seq<string>, normalizer: string -> Option<string>)
    requires forall x :: x in xs ==> x != "" && SIG_SEP in x
    ensures MigrateAll(xs, normalizer) == xs
    decreases |xs|
  {
    if |xs| > 0 {
      assert forall x :: x in xs[1..] ==> x in xs;
      MigrateAllOfSignatures(xs[1..], normalizer);
      assert [xs[0]] + xs[1..] == xs;
    }
  }

  /** Loading is idempotent once the normalizer only ever yields `|`-signatures
      (as `NormalizeUrlForAllowList` does): a loaded list loads to itself. */
  lemma LoadIdempotent(raw: seq<string>, normalizer: string -> Option<string>)
    requires forall e :: normalizer(e).Some? ==> SIG_SEP in normalizer(e).value
    ensures LoadAllowedUrlSignatures(LoadAllowedUrlSignatures(raw, normalizer), normalizer)
            == LoadAllowedUrlSignatures(raw, normalizer)
  {
    var r := LoadAllowedUrlSignatures(raw, normalizer);
    forall x | x in r ensures x != "" && SIG_SEP in x {
      var i :| 0 <= i < |raw| && x in Migrate(raw[i], normalizer);
    }
    MigrateAllOfSignatures(r, normalizer);
    DedupOfDistinct(r);
  }
}
