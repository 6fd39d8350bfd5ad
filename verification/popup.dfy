/** The pure helpers of popup.js: reading the domain lists typed into the options
    page, rendering stored signatures, durations and flight data, and the small
    list and label helpers of the popup controller. */
module Popup {
  import opened Optional
  import opened Strings
  import C = Constants
  import N = Normalize
  import F = Flight
  import Cl = Classifier
  import P = Pipeline

  // ---------------------------------------------------------------- parseDomainList

  const LIST_SEPS: set<char> := {'\n', ','}

  /** `entry.replace(/^https?:\/\//, '')` */
  function StripScheme(e: string): (r: string)
    ensures |r| <= |e| && r == e[|e| - |r|..]
    ensures StartsWith(e, "https://") ==> r == e[8..]
    ensures StartsWith(e, "http://") ==> r == e[7..]
    ensures !StartsWith(e, "http://") && !StartsWith(e, "https://") ==> r == e
  {
    if StartsWith(e, "https://") then
      assert e[..8][4] == 's' && "http://"[4] == ':';
      e[8..]
    else if StartsWith(e, "http://") then e[7..]
    else e
  }

  /** `entry.replace(/^www\./, '')`: one prefix only. */
  function StripWww(e: string): (r: string)
    ensures |r| <= |e| && r == e[|e| - |r|..]
    ensures StartsWith(e, "www.") ==> r == e[4..]
    ensures !StartsWith(e, "www.") ==> r == e
  {
    if StartsWith(e, "www.") then e[4..] else e
  }

  /** The characters `.` does not match. */
  predicate IsLineTerminator(c: char) {
    c == '\n' || c == '\r' || c == '\U{2028}' || c == '\U{2029}'
  }

  /** `/\/.*$/` can start at `k`: a slash with no line terminator after it. */
  predicate PathStartsAt(e: string, k: nat) {
    k < |e| && e[k] == '/' && forall j :: k < j < |e| ==> !IsLineTerminator(e[j])
  }

  function FirstPathStart(e: string, k: nat): (r: Option<nat>)
    requires k <= |e|
    ensures r.Some? ==> k <= r.value < |e| && PathStartsAt(e, r.value)
    ensures r.Some? ==> forall j :: k <= j < r.value ==> !PathStartsAt(e, j)
    ensures r.None? ==> forall j :: k <= j < |e| ==> !PathStartsAt(e, j)
    decreases |e| - k
  {
    if k == |e| then None
    else if PathStartsAt(e, k) then Some(k)
    else FirstPathStart(e, k + 1)
  }

  /** `entry.replace(/\/.*$/, '')`: cut at the leftmost possible match. */
  function StripPath(e: string): (r: string)
    ensures |r| <= |e| && r == e[..|r|]
    ensures forall j :: 0 <= j < |r| ==> !PathStartsAt(e, j)
    ensures |r| == |e| || PathStartsAt(e, |r|)
  {
    match FirstPathStart(e, 0)
    case Some(k) => e[..k]
    case None => e
  }

  /** `entry.replace(/\s+/g, '')` */
  function RemoveSpaces(e: string): (r: string)
    ensures forall c :: c in r ==> c in e && !IsSpace(c)
    ensures (forall c :: c in e ==> !IsSpace(c)) ==> r == e
    decreases |e|
  {
    if |e| == 0 then ""
    else (if IsSpace(e[0]) then "" else [e[0]]) + RemoveSpaces(e[1..])
  }

  /** Removing spaces works character by character: a space vanishes, any other
      character stays. */
  lemma RemoveSpacesSingle(c: char)
    ensures RemoveSpaces([c]) == if IsSpace(c) then "" else [c]
  {
    assert [c][1..] == "";
  }

  /** Removing spaces from a concatenation removes them from each part, so the
      other characters stay, in order. */
  lemma {:induction false} RemoveSpacesConcat(a: string, b: string)
    ensures RemoveSpaces(a + b) == RemoveSpaces(a) + RemoveSpaces(b)
    decreases |a|
  {
    if |a| > 0 {
      RemoveSpacesConcat(a[1..], b);
      RemoveSpacesHeadOfConcat(a, b);
      RemoveSpacesCons(a);
      Regroup(if IsSpace(a[0]) then "" else [a[0]], RemoveSpaces(a[1..]), RemoveSpaces(b),
              RemoveSpaces(a + b), RemoveSpaces(a));
    } else {
      assert a + b == b;
    }
  }

  lemma Regroup(h: string, x: string, y: string, whole: string, left: string)
    requires whole == h + (x + y) && left == h + x
    ensures whole == left + y
  {
  }

  lemma RemoveSpacesCons(s: string)
    requires |s| > 0
    ensures RemoveSpaces(s) == (if IsSpace(s[0]) then "" else [s[0]]) + RemoveSpaces(s[1..])
  {
  }

  lemma RemoveSpacesHeadOfConcat(a: string, b: string)
    requires |a| > 0
    ensures RemoveSpaces(a + b) == (if IsSpace(a[0]) then "" else [a[0]]) + RemoveSpaces(a[1..] + b)
  {
    var x := a + b;
    assert x[0] == a[0] && x[1..] == a[1..] + b;
    RemoveSpacesCons(x);
  }

  /** The candidate host one cleaned (trimmed, lower-cased, non-empty) line yields. */
  function Candidate(cleaned: string): (r: string)
    ensures forall c :: c in r ==> c in cleaned && !IsSpace(c)
  {
    var a := StripScheme(cleaned);
    var b := StripWww(a);
    var p := StripPath(b);
    assert forall c :: c in p ==> c in cleaned by {
      forall c | c in p ensures c in cleaned {
        var j :| 0 <= j < |p| && p[j] == c;
        assert b[j] == c;
        assert a[|a| - |b| + j] == c;
        assert cleaned[|cleaned| - |a| + |a| - |b| + j] == c;
      }
    }
    RemoveSpaces(p)
  }

  /** `[a-z0-9.-]` under the case-insensitive flag. */
  predicate DomainChar(c: char) {
    IsLowerChar(c) || IsUpperChar(c) || ('0' <= c <= '9') || c == '.' || c == '-'
  }

  /** A URL typed with an optional scheme, an optional `www.`, a host and a path
      yields exactly the host as its candidate. */
  lemma CandidateRecoversHost(scheme: string, www: string, host: string, path: string)
    requires scheme == "" || scheme == "http://" || scheme == "https://"
    requires www == "" || www == "www."
    requires forall c :: c in host ==> DomainChar(c)
    requires www == "" ==> !StartsWith(host, "www.")
    requires path == "" || (path[0] == '/' && forall j :: 0 <= j < |path| ==> !IsLineTerminator(path[j]))
    ensures Candidate(scheme + www + host + path) == host
  {
    var hp := host + path;
    var rest := www + hp;
    var e := scheme + www + host + path;
    Regroup4(scheme, www, host, path);
    NoPrefixAfterScheme(www, host, path);
    StripSchemeOfPrefixed(scheme, rest);
    StripWwwOfPrefixed(www, hp);
    PathCutAtHost(host, path);
    NoSpacesInDomain(host);
    CandidateChain(e, rest, hp, host);
  }

  lemma Regroup4(a: string, b: string, c: string, d: string)
    ensures a + b + c + d == a + (b + (c + d))
  {
  }

  lemma NoSpacesInDomain(host: string)
    requires forall c :: c in host ==> DomainChar(c)
    ensures RemoveSpaces(host) == host
  {
    assert forall c :: c in host ==> !IsSpace(c);
  }

  /** The candidate follows the four rewrites in order. */
  lemma CandidateChain(e: string, a: string, b: string, p: string)
    requires StripScheme(e) == a && StripWww(a) == b && StripPath(b) == p && RemoveSpaces(p) == p
    ensures Candidate(e) == p
  {
  }

  /** What follows the scheme never starts with a scheme, and what follows the
      optional `www.` never starts with another one. */
  lemma NoPrefixAfterScheme(www: string, host: string, path: string)
    requires www == "" || www == "www."
    requires forall c :: c in host ==> DomainChar(c)
    requires www == "" ==> !StartsWith(host, "www.")
    requires path == "" || path[0] == '/'
    ensures !StartsWith(www + (host + path), "http://") && !StartsWith(www + (host + path), "https://")
    ensures www == "" ==> !StartsWith(host + path, "www.")
  {
    var rest := www + (host + path);
    if www == "" {
      assert rest == host + path;
      NoSchemeBeforeHost(host, path);
      NoWwwBeforeHost(host, path);
    } else {
      assert rest[0] == 'w';
      if |rest| >= 7 {
        assert rest[..7][0] == rest[0];
      }
    }
  }

  lemma StripSchemeOfPrefixed(scheme: string, rest: string)
    requires scheme == "" || scheme == "http://" || scheme == "https://"
    requires scheme == "" ==> !StartsWith(rest, "http://") && !StartsWith(rest, "https://")
    ensures StripScheme(scheme + rest) == rest
  {
    if scheme != "" {
      assert (scheme + rest)[..|scheme|] == scheme;
      assert (scheme + rest)[|scheme|..] == rest;
    } else {
      assert scheme + rest == rest;
    }
  }

  lemma StripWwwOfPrefixed(www: string, rest: string)
    requires www == "" || www == "www."
    requires www == "" ==> !StartsWith(rest, "www.")
    ensures StripWww(www + rest) == rest
  {
    if www != "" {
      assert (www + rest)[..4] == www;
      assert (www + rest)[4..] == rest;
    } else {
      assert www + rest == rest;
    }
  }

  /** A host of domain characters followed by a path does not look like a scheme. */
  lemma NoSchemeBeforeHost(host: string, path: string)
    requires forall c :: c in host ==> DomainChar(c)
    requires path == "" || path[0] == '/'
    ensures !StartsWith(host + path, "http://") && !StartsWith(host + path, "https://")
  {
    HostPathNotPrefixed(host, path, "http://", 4);
    HostPathNotPrefixed(host, path, "https://", 5);
  }

  /** A prefix with a character at `m` that is neither a domain character nor a
      slash, and no slash before it, cannot start a host followed by a path. */
  lemma HostPathNotPrefixed(host: string, path: string, pre: string, m: nat)
    requires m < |pre| && !DomainChar(pre[m]) && pre[m] != '/'
    requires forall i :: 0 <= i < m ==> pre[i] != '/'
    requires forall c :: c in host ==> DomainChar(c)
    requires path == "" || path[0] == '/'
    ensures !StartsWith(host + path, pre)
  {
    var x := host + path;
    if |x| >= |pre| {
      if |host| > m {
        assert x[m] == host[m];
        assert host[m] in host;
        assert x[..|pre|][m] == x[m];
      } else {
        var k := |host|;
        assert x[k] == path[0];
        assert x[..|pre|][k] == x[k];
      }
    }
  }

  /** A host that does not start with `www.` keeps not starting with it when a
      path follows. */
  lemma NoWwwBeforeHost(host: string, path: string)
    requires forall c :: c in host ==> DomainChar(c)
    requires !StartsWith(host, "www.")
    requires path == "" || path[0] == '/'
    ensures !StartsWith(host + path, "www.")
  {
    var x := host + path;
    if |x| >= 4 {
      if |host| >= 4 {
        assert x[..4] == host[..4];
      } else {
        var k := |host|;
        assert x[k] == path[0] == '/';
        assert x[..4][k] != "www."[k];
      }
    }
  }

  /** The path is cut exactly where the host ends. */
  lemma PathCutAtHost(host: string, path: string)
    requires forall c :: c in host ==> c != '/'
    requires path == "" || (path[0] == '/' && forall j :: 0 <= j < |path| ==> !IsLineTerminator(path[j]))
    ensures StripPath(host + path) == host
  {
    var x := host + path;
    var r := StripPath(x);
    if path != "" {
      assert x[|host|] == '/';
      forall j | |host| < j < |x|
        ensures !IsLineTerminator(x[j])
      {
        assert x[j] == path[j - |host|];
      }
      assert PathStartsAt(x, |host|);
      assert |r| <= |host|;
    } else {
      assert x == host;
    }
    forall j | 0 <= j < |host|
      ensures !PathStartsAt(x, j)
    {
      assert x[j] == host[j];
      assert host[j] in host;
    }
    assert |r| == |host|;
    assert x[..|host|] == host;
  }

  /** `/^[a-z0-9.-]+\.[a-z]{2,}$/i.test(d)`: some dot splits `d` into a non-empty
      run of domain characters and at least two letters. */
  predicate DomainOk(d: string) {
    exists k :: 0 < k < |d| - 2 && d[k] == '.'
      && (forall j :: 0 <= j < k ==> DomainChar(d[j]))
      && (forall j :: k < j < |d| ==> IsLowerChar(d[j]) || IsUpperChar(d[j]))
  }

  /** A string the domain pattern accepts holds nothing but domain characters:
      no white space, no slash, no scheme. */
  lemma DomainOkChars(d: string)
    requires DomainOk(d)
    ensures forall j :: 0 <= j < |d| ==> DomainChar(d[j])
  {
  }

  function KeepDomains(xs: seq<string>): (r: seq<string>)
    ensures forall x :: x in r <==> x in xs && DomainOk(x)
    decreases |xs|
  {
    if |xs| == 0 then []
    else (if DomainOk(xs[0]) then [xs[0]] else []) + KeepDomains(xs[1..])
  }

  /** The trimmed, lower-cased lines of `text` split at newlines and commas. */
  function CleanLines(text: string): (r: seq<string>)
    ensures |r| == |Split(text, LIST_SEPS)|
    ensures forall i :: 0 <= i < |r| ==> r[i] == Lower(Trim(Split(text, LIST_SEPS)[i]))
    ensures forall i :: 0 <= i < |r| ==> IsLowerCase(r[i])
  {
    var lines := Split(text, LIST_SEPS);
    seq(|lines|, i requires 0 <= i < |lines| => Lower(Trim(lines[i])))
  }

  /** Stripping keeps a lower-case entry lower-case. */
  lemma CandidateLowerCase(cleaned: string)
    requires IsLowerCase(cleaned)
    ensures IsLowerCase(Candidate(cleaned))
  {
    var r := Candidate(cleaned);
    forall k | 0 <= k < |r| ensures !IsUpperChar(r[k]) {
      assert r[k] in r;
    }
  }

  /** `f` applied to the non-blank lines, in order. */
  function MapNonBlank(lines: seq<string>, f: string -> string): (r: seq<string>)
    ensures forall i :: 0 <= i < |lines| && lines[i] != "" ==> f(lines[i]) in r
    ensures forall x :: x in r ==> exists i :: 0 <= i < |lines| && lines[i] != "" && f(lines[i]) == x
    decreases |lines|
  {
    if |lines| == 0 then []
    else
      var head := if lines[0] != "" then [f(lines[0])] else [];
      var rest := MapNonBlank(lines[1..], f);
      var r := head + rest;
      assert forall i :: 0 <= i < |lines| && lines[i] != "" ==> f(lines[i]) in r by {
        forall i | 0 <= i < |lines| && lines[i] != "" ensures f(lines[i]) in r {
          if i > 0 {
            assert lines[1..][i - 1] == lines[i];
          }
        }
      }
      assert forall x :: x in r ==> exists i :: 0 <= i < |lines| && lines[i] != "" && f(lines[i]) == x by {
        forall x | x in r ensures exists i :: 0 <= i < |lines| && lines[i] != "" && f(lines[i]) == x {
          if x in head {
            assert lines[0] != "" && f(lines[0]) == x;
          } else {
            assert x in rest;
            var j :| 0 <= j < |lines[1..]| && lines[1..][j] != "" && f(lines[1..][j]) == x;
            assert lines[j + 1] == lines[1..][j];
          }
        }
      }
      r
  }

  /** The candidate host of every non-blank item of `text`; all lower-case. */
  function HostCandidates(text: string): (r: seq<string>)
    ensures forall x :: x in r ==> IsLowerCase(x)
    ensures var lines := CleanLines(text);
      && (forall i :: 0 <= i < |lines| && lines[i] != "" ==> Candidate(lines[i]) in r)
      && (forall x :: x in r ==> exists i :: 0 <= i < |lines| && lines[i] != "" && Candidate(lines[i]) == x)
  {
    var cleaned := CleanLines(text);
    var cands := MapNonBlank(cleaned, Candidate);
    assert forall x :: x in cands ==> IsLowerCase(x) by {
      forall x | x in cands ensures IsLowerCase(x) {
        var i :| 0 <= i < |cleaned| && cleaned[i] != "" && Candidate(cleaned[i]) == x;
        CandidateLowerCase(cleaned[i]);
      }
    }
    cands
  }

  /** `parseDomainList(text)`: each non-blank line or comma-separated item, with
      scheme, one `www.`, path and white space removed, kept if it looks like a
      domain; each once. */
  function ParseDomainList(text: Option<string>): (r: seq<string>)
    ensures text.None? || text.value == "" ==> r == []
    ensures NoDuplicates(r)
    ensures forall x :: x in r ==> DomainOk(x) && IsLowerCase(x)
    ensures text.Some? && text.value != "" ==>
      var lines := CleanLines(text.value);
      && (forall i :: 0 <= i < |lines| && lines[i] != "" && DomainOk(Candidate(lines[i])) ==> Candidate(lines[i]) in r)
      && (forall x :: x in r ==> exists i :: 0 <= i < |lines| && lines[i] != "" && Candidate(lines[i]) == x)
  {
    if text.None? || text.value == "" then []
    else Dedup(KeepDomains(HostCandidates(text.value)))
  }

  lemma NoSlashNoCut(e: string)
    requires '/' !in e
    ensures StripPath(e) == e
  {
    assert FirstPathStart(e, 0).None?;
  }

  /** Only one `www.` is removed: an entry written with a doubled prefix keeps one. */
  lemma DoubledWwwKeepsOne(d: string)
    requires '/' !in d
    requires forall c :: c in d ==> !IsSpace(c)
    ensures Candidate("www.www." + d) == "www." + d
  {
    var w := "www." + d;
    var e := "www." + w;
    assert "www.www." + d == e;
    assert StripScheme(e) == e by {
      DiffersAt(e, "https://", 0);
      DiffersAt(e, "http://", 0);
    }
    assert StripWww(e) == w by {
      PrefixOfConcat("www.", w);
    }
    assert StripPath(w) == w && RemoveSpaces(w) == w by {
      assert forall c :: c in w ==> c in "www." || c in d;
      NoSlashNoCut(w);
    }
  }

  /** A `www.` in front of an accepted domain is accepted too. */
  lemma DomainOkWithWww(d: string)
    requires DomainOk(d)
    ensures DomainOk("www." + d)
  {
    var w := "www." + d;
    var k :| 0 < k < |d| - 2 && d[k] == '.'
      && (forall j :: 0 <= j < k ==> DomainChar(d[j]))
      && (forall j :: k < j < |d| ==> IsLowerChar(d[j]) || IsUpperChar(d[j]));
    assert w[k + 4] == '.';
    assert forall j :: 0 <= j < k + 4 ==> DomainChar(w[j]);
    assert forall j :: k + 4 < j < |w| ==> w[j] == d[j - 4];
  }

  // ---------------------------------------------------------------- formatAllowedSignature

  /** `formatAllowedSignature(signature)`: `host+path`, with ` (key=value)` when
      both are non-empty; strings without a `|` are shown as they are. */
  function FormatAllowedSignature(sig: string): (r: string)
    ensures (forall i :: 0 <= i < |sig| ==> sig[i] != N.SIG_SEP) ==> r == sig
  {
    var parts := Split(sig, {N.SIG_SEP});
    SplitManyIffSep(sig, {N.SIG_SEP});
    if |parts| < 2 then sig
    else
      var key := if |parts| > 2 then parts[2] else "";
      var value := if |parts| > 3 then parts[3] else "";
      if key != "" && value != "" then parts[0] + parts[1] + " (" + key + "=" + value + ")"
      else parts[0] + parts[1]
  }

  /** A signature that splits into parts renders as host and path, followed by
      the query pair when both its halves are non-empty. */
  lemma FormatOfParts(sig: string)
    requires N.ParseSignature(sig).Some?
    ensures var sp := N.ParseSignature(sig).value;
      FormatAllowedSignature(sig) ==
        match sp.query
        case Some(kv) => if kv.0 != "" && kv.1 != "" then sp.host + sp.path + " (" + kv.0 + "=" + kv.1 + ")"
                         else sp.host + sp.path
        case None => sp.host + sp.path
  {
  }

  /** A page's signature renders as its host and path, followed by the chosen
      query parameter when there is one. */
  lemma FormatNormalizedSignature(p: N.ParsedUrl)
    requires N.SIG_SEP !in p.host && N.SIG_SEP !in p.path
    requires forall i :: 0 <= i < |p.query| ==> N.SIG_SEP !in p.query[i].1
    ensures var host := Lower(p.host);
      var path := N.PathSignature(p.path);
      FormatAllowedSignature(N.NormalizeUrlForAllowList(Some(p)).value) ==
        match N.FirstQueryMatch(p.query, N.QUERY_KEYS)
        case None => host + path
        case Some(kv) => host + path + " (" + kv.0 + "=" + kv.1 + ")"
  {
    N.SignatureRoundTrip(p);
    var m := N.FirstQueryMatch(p.query, N.QUERY_KEYS);
    if m.Some? {
      assert m.value.0 in N.QUERY_KEYS;
      assert m.value.0 != "" && m.value.1 != "";
    }
    FormatOfKnownParts(N.NormalizeUrlForAllowList(Some(p)).value, Lower(p.host), N.PathSignature(p.path), m);
  }

  lemma FormatOfKnownParts(sig: string, host: string, path: string, m: Option<(string, string)>)
    requires N.ParseSignature(sig) == Some(N.SignatureParts(host, path, m))
    requires m.Some? ==> m.value.0 != "" && m.value.1 != ""
    ensures FormatAllowedSignature(sig) ==
      match m
      case None => host + path
      case Some(kv) => host + path + " (" + kv.0 + "=" + kv.1 + ")"
  {
    FormatOfParts(sig);
  }

  // ---------------------------------------------------------------- formatDuration

  /** `seconds.toString().padStart(2, '0')` for `seconds < 60`. */
  function Pad2(n: nat): (r: string)
    requires n < 60
    ensures |r| == 2 && IsDigits(r) && DigitsValue(r) == n
  {
    if n < 10 then
      assert DigitsValue("0") == 0;
      assert ("0" + [DigitChar(n)])[..1] == "0";
      "0" + [DigitChar(n)]
    else
      NatToStringRoundTrip(n);
      assert NatToString(n) == NatToString(n / 10) + [DigitChar(n % 10)];
      NatToString(n)
  }

  /** `formatDuration(ms)`: `m:ss`; a missing, zero or negative duration reads
      `0:00`. Reading the two fields back gives the whole seconds. */
  function FormatDuration(ms: Option<int>): (r: string)
    ensures ms.None? || ms.value <= 0 ==> r == "0:00"
    ensures |r| >= 4 && r[|r| - 3] == ':'
    ensures IsDigits(r[..|r| - 3]) && IsDigits(r[|r| - 2..])
    ensures DigitsValue(r[|r| - 2..]) < 60
    ensures |r| == 4 || r[0] != '0'
    ensures ms.Some? && ms.value > 0 ==>
      DigitsValue(r[..|r| - 3]) * 60 + DigitsValue(r[|r| - 2..]) == ms.value / 1000
  {
    if ms.None? || ms.value <= 0 then
      assert "0:00"[..1] == "0" && "0:00"[2..] == "00";
      assert DigitsValue("00") == DigitsValue("0") * 10 by {
        assert "00"[..1] == "0";
      }
      "0:00"
    else
      var total := ms.value / 1000;
      var m := total / 60;
      var s := total % 60;
      var r := NatToString(m) + ":" + Pad2(s);
      assert r[..|r| - 3] == NatToString(m);
      assert r[|r| - 2..] == Pad2(s);
      NatToStringRoundTrip(m);
      r
  }

  // ---------------------------------------------------------------- escapeHtml

  /** `s.replace(/c/g, rep)` for a single character. */
  function ReplaceChar(s: string, c: char, rep: string): (r: string)
    ensures c !in rep ==> c !in r
    ensures (forall x :: x in r ==> x in s || x in rep)
    decreases |s|
  {
    if |s| == 0 then ""
    else (if s[0] == c then rep else [s[0]]) + ReplaceChar(s[1..], c, rep)
  }

  /** `escapeHtml(str)`: the five replacements, ampersand first. */
  function EscapeHtml(s: string): (r: string)
    ensures '<' !in r && '>' !in r && '"' !in r && '\'' !in r
  {
    var a := ReplaceChar(s, '&', "&amp;");
    var b := ReplaceChar(a, '<', "&lt;");
    var c := ReplaceChar(b, '>', "&gt;");
    var d := ReplaceChar(c, '"', "&quot;");
    ReplaceChar(d, '\'', "&#39;")
  }

  /** The entity each character becomes. */
  function EscapeChar(c: char): string {
    match c
    case '&' => "&amp;"
    case '<' => "&lt;"
    case '>' => "&gt;"
    case '"' => "&quot;"
    case '\'' => "&#39;"
    case _ => [c]
  }

  /** Reference definition: every character escaped on its own. */
  function EscapeEach(s: string): string
    decreases |s|
  {
    if |s| == 0 then "" else EscapeChar(s[0]) + EscapeEach(s[1..])
  }

  lemma {:induction false} ReplaceCharConcat(a: string, b: string, c: char, rep: string)
    ensures ReplaceChar(a + b, c, rep) == ReplaceChar(a, c, rep) + ReplaceChar(b, c, rep)
    decreases |a|
  {
    if |a| == 0 {
      assert a + b == b;
    } else {
      ReplaceCharConcat(a[1..], b, c, rep);
      var head := if a[0] == c then rep else [a[0]];
      assert (a + b)[0] == a[0] && (a + b)[1..] == a[1..] + b;
      assert ReplaceChar(a + b, c, rep) == head + ReplaceChar(a[1..] + b, c, rep);
      assert ReplaceChar(a, c, rep) == head + ReplaceChar(a[1..], c, rep);
    }
  }

  lemma ReplaceCharAbsent(s: string, c: char, rep: string)
    requires c !in s
    ensures ReplaceChar(s, c, rep) == s
    decreases |s|
  {
    if |s| > 0 {
      assert s[1..] + [] == s[1..];
      assert forall x :: x in s[1..] ==> x in s;
      ReplaceCharAbsent(s[1..], c, rep);
    }
  }

  lemma ReplaceCharSingle(x: char, c: char, rep: string)
    ensures ReplaceChar([x], c, rep) == if x == c then rep else [x]
  {
    assert [x][1..] == [];
  }

  /** The replacement chain applied to an entity that holds none of the later
      targets leaves it alone. */
  lemma ChainKeeps(e: string, from: nat)
    requires from <= 4
    requires from <= 1 ==> '<' !in e
    requires from <= 2 ==> '>' !in e
    requires from <= 3 ==> '"' !in e
    requires '\'' !in e
    ensures from <= 1 ==>
      ReplaceChar(ReplaceChar(ReplaceChar(ReplaceChar(e, '<', "&lt;"), '>', "&gt;"), '"', "&quot;"), '\'', "&#39;") == e
    ensures from <= 2 ==> ReplaceChar(ReplaceChar(ReplaceChar(e, '>', "&gt;"), '"', "&quot;"), '\'', "&#39;") == e
    ensures from <= 3 ==> ReplaceChar(ReplaceChar(e, '"', "&quot;"), '\'', "&#39;") == e
    ensures ReplaceChar(e, '\'', "&#39;") == e
  {
    ReplaceCharAbsent(e, '\'', "&#39;");
    if from <= 3 {
      ReplaceCharAbsent(e, '"', "&quot;");
    }
    if from <= 2 {
      ReplaceCharAbsent(e, '>', "&gt;");
    }
    if from <= 1 {
      ReplaceCharAbsent(e, '<', "&lt;");
    }
  }

  lemma EscapeHtmlChar(ch: char)
    ensures EscapeHtml([ch]) == EscapeChar(ch)
  {
    ReplaceCharSingle(ch, '&', "&amp;");
    if ch == '&' {
      ChainKeeps("&amp;", 1);
    } else {
      ReplaceCharSingle(ch, '<', "&lt;");
      if ch == '<' {
        ChainKeeps("&lt;", 2);
      } else {
        ReplaceCharSingle(ch, '>', "&gt;");
        if ch == '>' {
          ChainKeeps("&gt;", 3);
        } else {
          ReplaceCharSingle(ch, '"', "&quot;");
          if ch == '"' {
            ChainKeeps("&quot;", 4);
          } else {
            ReplaceCharSingle(ch, '\'', "&#39;");
          }
        }
      }
    }
  }

  lemma EscapeHtmlConcat(x: string, y: string)
    ensures EscapeHtml(x + y) == EscapeHtml(x) + EscapeHtml(y)
  {
    ReplaceCharConcat(x, y, '&', "&amp;");
    var a1, a2 := ReplaceChar(x, '&', "&amp;"), ReplaceChar(y, '&', "&amp;");
    ReplaceCharConcat(a1, a2, '<', "&lt;");
    var b1, b2 := ReplaceChar(a1, '<', "&lt;"), ReplaceChar(a2, '<', "&lt;");
    ReplaceCharConcat(b1, b2, '>', "&gt;");
    var c1, c2 := ReplaceChar(b1, '>', "&gt;"), ReplaceChar(b2, '>', "&gt;");
    ReplaceCharConcat(c1, c2, '"', "&quot;");
    var d1, d2 := ReplaceChar(c1, '"', "&quot;"), ReplaceChar(c2, '"', "&quot;");
    ReplaceCharConcat(d1, d2, '\'', "&#39;");
  }

  /** The chain of replacements escapes each character independently: no entity
      produced by one step is touched by a later one. */
  lemma {:induction false} EscapeHtmlIsPerChar(s: string)
    ensures EscapeHtml(s) == EscapeEach(s)
    decreases |s|
  {
    if |s| == 0 {
      assert EscapeHtml(s) == "";
    } else {
      assert s == [s[0]] + s[1..];
      EscapeHtmlConcat([s[0]], s[1..]);
      EscapeHtmlChar(s[0]);
      EscapeHtmlIsPerChar(s[1..]);
    }
  }

  /** Decoding of the five entities, left to right. */
  function Unescape(s: string): string
    decreases |s|
  {
    if |s| == 0 then ""
    else if StartsWith(s, "&amp;") then "&" + Unescape(s[5..])
    else if StartsWith(s, "&lt;") then "<" + Unescape(s[4..])
    else if StartsWith(s, "&gt;") then ">" + Unescape(s[4..])
    else if StartsWith(s, "&quot;") then "\"" + Unescape(s[6..])
    else if StartsWith(s, "&#39;") then "'" + Unescape(s[5..])
    else [s[0]] + Unescape(s[1..])
  }

  lemma PrefixOfConcat(a: string, rest: string)
    ensures StartsWith(a + rest, a) && (a + rest)[|a|..] == rest
  {
    assert (a + rest)[..|a|] == a;
  }

  lemma DiffersAt(s: string, p: string, k: nat)
    requires k < |p| && k < |s| && s[k] != p[k]
    ensures !StartsWith(s, p)
  {
    if |p| <= |s| {
      assert s[..|p|][k] == s[k];
    }
  }

  /** Decoding one entity in front of `rest`: its second character tells it
      apart from the entities tried before it. */
  lemma UnescapeEntity(ent: string, rest: string)
    requires ent in {"&amp;", "&lt;", "&gt;", "&quot;", "&#39;"}
    ensures Unescape(ent + rest) ==
      (match ent
       case "&amp;" => "&"
       case "&lt;" => "<"
       case "&gt;" => ">"
       case "&quot;" => "\""
       case _ => "'") + Unescape(rest)
  {
    var e := ent + rest;
    PrefixOfConcat(ent, rest);
    assert e[1] == ent[1];
    if ent != "&amp;" { DiffersAt(e, "&amp;", 1); }
    if ent != "&amp;" && ent != "&lt;" { DiffersAt(e, "&lt;", 1); }
    if ent == "&quot;" || ent == "&#39;" { DiffersAt(e, "&gt;", 1); }
    if ent == "&#39;" { DiffersAt(e, "&quot;", 1); }
  }

  lemma UnescapePlain(ch: char, rest: string)
    requires ch !in {'&', '<', '>', '"', '\''}
    ensures Unescape([ch] + rest) == [ch] + Unescape(rest)
  {
    var e := [ch] + rest;
    PrefixOfConcat([ch], rest);
    DiffersAt(e, "&amp;", 0);
    DiffersAt(e, "&lt;", 0);
    DiffersAt(e, "&gt;", 0);
    DiffersAt(e, "&quot;", 0);
    DiffersAt(e, "&#39;", 0);
  }

  lemma UnescapeStep(ch: char, rest: string)
    ensures Unescape(EscapeChar(ch) + rest) == [ch] + Unescape(rest)
  {
    if ch in {'&', '<', '>', '"', '\''} {
      UnescapeEntity(EscapeChar(ch), rest);
    } else {
      UnescapePlain(ch, rest);
    }
  }

  /** Escaping loses nothing: decoding the entities gives the text back. */
  lemma {:induction false} EscapeHtmlRoundTrip(s: string)
    ensures Unescape(EscapeHtml(s)) == s
    decreases |s|
  {
    EscapeHtmlIsPerChar(s);
    if |s| > 0 {
      EscapeHtmlIsPerChar(s[1..]);
      EscapeHtmlRoundTrip(s[1..]);
      UnescapeStep(s[0], EscapeEach(s[1..]));
      assert [s[0]] + s[1..] == s;
    }
  }

  // ---------------------------------------------------------------- normalizeFlightData

  /** The flight object the popup receives; absent properties are `None`. */
  datatype FlightView = FlightView(
    active: Option<bool>,
    status: Option<string>,
    limit: Option<int>,
    turbulence: int,
    goal: Option<string>,
    durationMs: Option<int>)

  const IDLE := "idle"

  /** `normalizeFlightData(flight)`: `limit || 5`, `status || (active ? 'inflight'
      : 'idle')`, `active ?? status === 'inflight'`; other properties are kept. */
  function NormalizeFlightData(f: Option<FlightView>): (r: Option<FlightView>)
    ensures r.None? <==> f.None?
    ensures r.Some? ==> r.value.limit.Some? && r.value.status.Some? && r.value.active.Some?
    ensures r.Some? ==> r.value.limit.value == (if f.value.limit.None? || f.value.limit.value == 0
                                                then C.TURBULENCE_LIMIT as int else f.value.limit.value)
    ensures r.Some? && f.value.status.Some? && f.value.status.value != "" ==> r.value.status == f.value.status
    ensures r.Some? && (f.value.status.None? || f.value.status.value == "") ==>
      r.value.status == Some(if f.value.active == Some(true) then F.INFLIGHT else IDLE)
    ensures r.Some? && f.value.active.Some? ==> r.value.active == f.value.active
    ensures r.Some? && f.value.active.None? ==> r.value.active == Some(r.value.status.value == F.INFLIGHT)
    ensures r.Some? ==> r.value.turbulence == f.value.turbulence && r.value.goal == f.value.goal
                        && r.value.durationMs == f.value.durationMs
  {
    match f
    case None => None
    case Some(v) =>
      var limit := if v.limit.None? || v.limit.value == 0 then C.TURBULENCE_LIMIT as int else v.limit.value;
      var status := if v.status.Some? && v.status.value != "" then v.status.value
                    else if v.active == Some(true) then F.INFLIGHT else IDLE;
      var active := if v.active.Some? then v.active.value else status == F.INFLIGHT;
      Some(v.(limit := Some(limit), status := Some(status), active := Some(active)))
  }

  /** The object `getSnapshot` hands to the popup. */
  function ViewOf(s: F.Snapshot): FlightView {
    FlightView(Some(s.active), s.status, Some(s.limit), s.turbulence, s.goal, s.durationMs)
  }

  /** Normalizing a snapshot of a well-formed flight state agrees with the state:
      active exactly while in flight, status `inflight` or `idle`, the fixed limit. */
  lemma NormalizeSnapshot(s: F.State, now: int)
    requires F.Valid(s)
    ensures var r := NormalizeFlightData(Some(ViewOf(F.GetSnapshot(s, now)))).value;
      && r.active == Some(F.IsActive(s))
      && r.status == Some(if s.flight.Some? then F.INFLIGHT else IDLE)
      && r.limit == Some(C.TURBULENCE_LIMIT as int)
  {
  }

  // ---------------------------------------------------------------- controller helpers

  /** `hasRequiredConfig(data)` */
  function HasRequiredConfig(apiKey: Option<string>, task: Option<string>): (r: bool)
    ensures r <==> apiKey.Some? && apiKey.value != "" && task.Some? && task.value != ""
  {
    match (apiKey, task)
    case (Some(k), Some(t)) => k != "" && t != ""
    case _ => false
  }

  /** The popup reads the same stored key and task as the background, so its
      "configured" test holds exactly when the background's key and task gates
      pass: for a page the built-in skip does not answer, the check then never
      replies `no-api-key` or `no-task`, and otherwise it replies one of them. */
  lemma HasRequiredConfigMatchesGates(e: P.Engine, p: P.Page, html: Option<string>, ai: Cl.Analysis, now: int)
    ensures HasRequiredConfig(e.config.apiKey, e.config.currentTask) <==> P.Truthy(e.config.apiKey) && P.Truthy(e.config.currentTask)
    ensures !P.ShouldSkipAIAnalysis(e.config, p.parsed) ==>
      (HasRequiredConfig(e.config.apiKey, e.config.currentTask) <==>
       P.AfterCache(e, p, html, ai, now).0.source !in {"no-api-key", "no-task"})
  {
  }

  const PERFECT := "perfect"

  /** `computeFlightStreak()`: the number of leading `perfect` outcomes in the
      history (most recent first); a missing history counts as empty. */
  method ComputeFlightStreak(history: Option<seq<string>>) returns (streak: nat)
    ensures history.None? ==> streak == 0
    ensures history.Some? ==> streak <= |history.value|
    ensures history.Some? ==> forall i :: 0 <= i < streak ==> history.value[i] == PERFECT
    ensures history.Some? && streak < |history.value| ==> history.value[streak] != PERFECT
  {
    var h := history.GetOr([]);
    streak := 0;
    while streak < |h| && h[streak] == PERFECT
      invariant streak <= |h|
      invariant forall i :: 0 <= i < streak ==> h[i] == PERFECT
      decreases |h| - streak
    {
      streak := streak + 1;
    }
  }

  /** The outcome names of a flight history. */
  function OutcomeNames(h: seq<F.FlightRecord>): (r: seq<string>)
    ensures |r| == |h|
    ensures forall i :: 0 <= i < |h| ==> r[i] == F.OutcomeName(h[i].outcome)
  {
    seq(|h|, i requires 0 <= i < |h| => F.OutcomeName(h[i].outcome))
  }

  /** Over a real flight history the streak counts the leading perfect landings. */
  method StreakOfHistory(h: seq<F.FlightRecord>) returns (streak: nat)
    ensures streak <= |h|
    ensures forall i :: 0 <= i < streak ==> h[i].outcome == F.Perfect
    ensures streak < |h| ==> h[streak].outcome != F.Perfect
  {
    streak := ComputeFlightStreak(Some(OutcomeNames(h)));
    assert forall i :: 0 <= i < |h| ==> (F.OutcomeName(h[i].outcome) == PERFECT <==> h[i].outcome == F.Perfect);
  }

  const RECENT_GOALS_LIMIT: nat := 5

  /** The recent goals other than `goal`, compared case-insensitively, in order. */
  function WithoutGoal(xs: seq<string>, goal: string): (r: seq<string>)
    ensures |r| <= |xs|
    ensures forall x :: x in r <==> x in xs && Lower(x) != Lower(goal)
    decreases |xs|
  {
    if |xs| == 0 then []
    else (if Lower(xs[0]) != Lower(goal) then [xs[0]] else []) + WithoutGoal(xs[1..], goal)
  }

  /** One entry survives exactly when it differs from the goal up to case. */
  lemma WithoutGoalSingle(x: string, goal: string)
    ensures WithoutGoal([x], goal) == if Lower(x) != Lower(goal) then [x] else []
  {
    assert [x][1..] == [];
  }

  /** Dropping the goal distributes over concatenation, so the surviving
      entries keep their order and multiplicity, as `filter` does. */
  lemma {:induction false} WithoutGoalConcat(xs: seq<string>, ys: seq<string>, goal: string)
    ensures WithoutGoal(xs + ys, goal) == WithoutGoal(xs, goal) + WithoutGoal(ys, goal)
    decreases |xs|
  {
    if |xs| == 0 {
      assert xs + ys == ys;
    } else {
      var head := if Lower(xs[0]) != Lower(goal) then [xs[0]] else [];
      assert (xs + ys)[0] == xs[0];
      assert (xs + ys)[1..] == xs[1..] + ys;
      WithoutGoalConcat(xs[1..], ys, goal);
      assert head + (WithoutGoal(xs[1..], goal) + WithoutGoal(ys, goal))
          == (head + WithoutGoal(xs[1..], goal)) + WithoutGoal(ys, goal);
    }
  }

  /** The goal `t` moved to the front, any entry equal to it up to case dropped,
      and the list cut to five entries. */
  function PushGoal(recent: seq<string>, t: string): (r: seq<string>)
    ensures |r| == (if 1 + |WithoutGoal(recent, t)| < RECENT_GOALS_LIMIT then 1 + |WithoutGoal(recent, t)| else RECENT_GOALS_LIMIT)
    ensures r[0] == t
    ensures r[1..] == WithoutGoal(recent, t)[..|r| - 1]
  {
    var w := WithoutGoal(recent, t);
    var n := if 1 + |w| < RECENT_GOALS_LIMIT then 1 + |w| else RECENT_GOALS_LIMIT;
    var r := [t] + w[..n - 1];
    assert r[1..] == w[..n - 1];
    r
  }

  /** `registerRecentGoal(goal)` on the list: a blank goal changes nothing;
      otherwise the trimmed goal moves to the front. */
  function RegisterRecentGoal(recent: seq<string>, goal: Option<string>): (r: seq<string>)
    ensures Trim(goal.GetOr("")) == "" ==> r == recent
    ensures Trim(goal.GetOr("")) != "" ==> r == PushGoal(recent, Trim(goal.GetOr("")))
  {
    var t := Trim(goal.GetOr(""));
    if t == "" then recent else PushGoal(recent, t)
  }

  /** Every entry after the first came from the old list and differs from the
      goal up to case. */
  lemma PushGoalEntries(recent: seq<string>, t: string)
    ensures var r := PushGoal(recent, t);
      forall i :: 1 <= i < |r| ==> Lower(r[i]) != Lower(t) && r[i] in recent
  {
    var r := PushGoal(recent, t);
    var w := WithoutGoal(recent, t);
    forall i | 1 <= i < |r| ensures Lower(r[i]) != Lower(t) && r[i] in recent {
      assert r[i] == r[1..][i - 1] == w[..|r| - 1][i - 1] == w[i - 1];
      assert w[i - 1] in w;
    }
  }

  lemma {:induction false} WithoutGoalKeepsOthers(xs: seq<string>, goal: string)
    requires forall x :: x in xs ==> Lower(x) != Lower(goal)
    ensures WithoutGoal(xs, goal) == xs
    decreases |xs|
  {
    if |xs| > 0 {
      assert xs[0] in xs;
      assert forall x :: x in xs[1..] ==> x in xs;
      WithoutGoalKeepsOthers(xs[1..], goal);
      assert [xs[0]] + xs[1..] == xs;
    }
  }

  lemma WithoutGoalDropsHead(t: string, xs: seq<string>)
    ensures WithoutGoal([t] + xs, t) == WithoutGoal(xs, t)
  {
    assert ([t] + xs)[1..] == xs;
  }

  /** Pushing the same goal twice is the same as once. */
  lemma PushGoalIdempotent(recent: seq<string>, t: string)
    ensures PushGoal(PushGoal(recent, t), t) == PushGoal(recent, t)
  {
    var r := PushGoal(recent, t);
    var tail := r[1..];
    assert r == [t] + tail;
    PushGoalEntries(recent, t);
    assert forall x :: x in tail ==> Lower(x) != Lower(t) by {
      forall x | x in tail ensures Lower(x) != Lower(t) {
        var i :| 0 <= i < |tail| && tail[i] == x;
        assert r[i + 1] == x;
      }
    }
    assert WithoutGoal(r, t) == tail by {
      WithoutGoalDropsHead(t, tail);
      WithoutGoalKeepsOthers(tail, t);
    }
    var r2 := PushGoal(r, t);
    assert r2[1..] == tail;
    assert r2 == [t] + r2[1..];
  }

  /** Registering the same goal twice is the same as once. */
  lemma RegisterRecentGoalIdempotent(recent: seq<string>, goal: Option<string>)
    ensures RegisterRecentGoal(RegisterRecentGoal(recent, goal), goal) == RegisterRecentGoal(recent, goal)
  {
    var t := Trim(goal.GetOr(""));
    if t != "" {
      PushGoalIdempotent(recent, t);
    }
  }

  /** `getOutcomeLabel(outcome)` */
  function GetOutcomeLabel(outcome: string): (r: string)
    ensures outcome == "perfect" ==> r == "Perfect landing"
    ensures outcome == "delayed" ==> r == "Delayed arrival"
    ensures outcome == "fail" ==> r == "Emergency landing"
    ensures outcome !in {"perfect", "delayed", "fail"} ==> r == "Completed"
  {
    match outcome
    case "perfect" => "Perfect landing"
    case "delayed" => "Delayed arrival"
    case "fail" => "Emergency landing"
    case _ => "Completed"
  }

  /** Every recorded outcome has its own label, never the fallback. */
  lemma OutcomeLabelsDistinct(o1: F.Outcome, o2: F.Outcome)
    ensures GetOutcomeLabel(F.OutcomeName(o1)) != "Completed"
    ensures GetOutcomeLabel(F.OutcomeName(o1)) == GetOutcomeLabel(F.OutcomeName(o2)) <==> o1 == o2
  {
  }
}
