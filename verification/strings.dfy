/** The JavaScript string and array primitives the extension leans on
    (`trim`, `toLowerCase`, `includes`, `split`, `join`, `new Set`, `filter`,
    number-to-decimal), written once and proved once. Case mapping covers the
    ASCII letters only. */
module Strings {

  /** The characters JavaScript's `trim` removes and `\s` matches:
      white space and line terminators. */
  predicate IsSpace(c: char) {
    || c == ' ' || c == '\t' || c == '\n' || c == '\r'
    || c == '\U{B}' || c == '\U{C}' || c == '\U{A0}' || c == '\U{1680}'
    || ('\U{2000}' <= c <= '\U{200A}')
    || c == '\U{2028}' || c == '\U{2029}' || c == '\U{202F}' || c == '\U{205F}'
    || c == '\U{3000}' || c == '\U{FEFF}'
  }

  predicate IsUpperChar(c: char) { 'A' <= c <= 'Z' }

  predicate IsLowerChar(c: char) { 'a' <= c <= 'z' }

  function LowerChar(c: char): char {
    if IsUpperChar(c) then (c as int + 32) as char else c
  }

  function UpperChar(c: char): char {
    if IsLowerChar(c) then (c as int - 32) as char else c
  }

  /** `s.toLowerCase()` */
  function Lower(s: string): string {
    seq(|s|, i requires 0 <= i < |s| => LowerChar(s[i]))
  }

  /** `s.toUpperCase()` */
  function Upper(s: string): string {
    seq(|s|, i requires 0 <= i < |s| => UpperChar(s[i]))
  }

  /** No upper-case letter anywhere. */
  predicate IsLowerCase(s: string) {
    forall i :: 0 <= i < |s| ==> !IsUpperChar(s[i])
  }

  lemma LowerIsLowerCase(s: string)
    ensures IsLowerCase(Lower(s))
  {
  }

  lemma LowerOfLowerCase(s: string)
    requires IsLowerCase(s)
    ensures Lower(s) == s
  {
  }

  /** Lower-casing commutes with slicing. */
  lemma LowerSlice(s: string, i: nat, j: nat)
    requires i <= j <= |s|
    ensures Lower(s[i..j]) == Lower(s)[i..j]
  {
  }

  /** Lower-casing distributes over concatenation. */
  lemma LowerConcat(a: string, b: string)
    ensures Lower(a + b) == Lower(a) + Lower(b)
  {
  }

  // ---------------------------------------------------------------- trimming

  /** `s.trimStart()`: the suffix left after dropping leading white space. */
  function TrimStart(s: string): (r: string)
    ensures |r| <= |s| && r == s[|s| - |r|..]
    ensures |r| > 0 ==> !IsSpace(r[0])
    decreases |s|
  {
    if |s| > 0 && IsSpace(s[0]) then TrimStart(s[1..]) else s
  }

  /** What `TrimStart` drops is white space. */
  lemma {:induction false} TrimStartDropsSpaces(s: string)
    ensures forall i :: 0 <= i < |s| - |TrimStart(s)| ==> IsSpace(s[i])
    decreases |s|
  {
    if |s| > 0 && IsSpace(s[0]) {
      TrimStartDropsSpaces(s[1..]);
    }
  }

  /** `s.trimEnd()`: the prefix left after dropping trailing white space. */
  function TrimEnd(s: string): (r: string)
    ensures |r| <= |s| && r == s[..|r|]
    ensures |r| > 0 ==> !IsSpace(r[|r| - 1])
    decreases |s|
  {
    if |s| > 0 && IsSpace(s[|s| - 1]) then TrimEnd(s[..|s| - 1]) else s
  }

  /** What `TrimEnd` drops is white space. */
  lemma {:induction false} TrimEndDropsSpaces(s: string)
    ensures forall i :: |TrimEnd(s)| <= i < |s| ==> IsSpace(s[i])
    decreases |s|
  {
    if |s| > 0 && IsSpace(s[|s| - 1]) {
      TrimEndDropsSpaces(s[..|s| - 1]);
    }
  }

  /** Neither end is white space. */
  predicate IsTrimmed(s: string) {
    |s| == 0 || (!IsSpace(s[0]) && !IsSpace(s[|s| - 1]))
  }

  /** `s.trim()`: a contiguous piece of `s` with no white space at either end,
      everything cut away being white space. */
  function Trim(s: string): (r: string)
    ensures IsTrimmed(r)
    ensures Contains(s, r)
    ensures forall c :: c in r ==> c in s
    ensures (forall i :: 0 <= i < |s| ==> !IsSpace(s[i])) ==> r == s
  {
    TrimBothEnds(s);
    TrimEndsOfTrimmed(s);
    TrimmedPieceAt(s);
    PieceMembers(s, TrimEnd(TrimStart(s)), |s| - |TrimStart(s)|);
    TrimEnd(TrimStart(s))
  }

  lemma TrimBothEnds(s: string)
    ensures IsTrimmed(TrimEnd(TrimStart(s)))
  {
    var t := TrimStart(s);
    var r := TrimEnd(t);
    if |r| > 0 {
      assert r[0] == t[0];
    }
  }

  /** A piece found in `s` is contained in it, character by character too. */
  lemma PieceMembers(s: string, r: string, k: int)
    requires MatchAt(s, r, k)
    ensures Contains(s, r)
    ensures forall c :: c in r ==> c in s
  {
    SliceMembers(s, k, k + |r|);
  }

  /** Trimming both ends leaves the piece of `s` starting where the leading
      white space ends. */
  lemma TrimmedPieceAt(s: string)
    ensures MatchAt(s, TrimEnd(TrimStart(s)), |s| - |TrimStart(s)|)
  {
    PrefixOfSuffixAt(s, TrimStart(s), TrimEnd(TrimStart(s)));
  }

  /** A prefix of a suffix of `s` occurs in `s` where the suffix starts. */
  lemma PrefixOfSuffixAt(s: string, t: string, r: string)
    requires |t| <= |s| && t == s[|s| - |t|..]
    requires |r| <= |t| && r == t[..|r|]
    ensures MatchAt(s, r, |s| - |t|)
  {
    var k := |s| - |t|;
    assert s[k..k + |r|] == s[k..][..|r|];
  }

  /** Every character of a slice is a character of the whole. */
  lemma SliceMembers(s: string, i: nat, j: nat)
    requires i <= j <= |s|
    ensures forall c :: c in s[i..j] ==> c in s
  {
    forall c | c in s[i..j] ensures c in s {
      var n :| 0 <= n < j - i && s[i..j][n] == c;
      assert s[i + n] == c;
    }
  }

  lemma TrimStartOfTrimmed(s: string)
    requires |s| == 0 || !IsSpace(s[0])
    ensures TrimStart(s) == s
  {
  }

  lemma TrimEndOfTrimmed(s: string)
    requires |s| == 0 || !IsSpace(s[|s| - 1])
    ensures TrimEnd(s) == s
  {
  }

  lemma TrimEndsOfTrimmed(s: string)
    ensures IsTrimmed(s) ==> TrimEnd(TrimStart(s)) == s
  {
    if IsTrimmed(s) {
      TrimStartOfTrimmed(s);
      TrimEndOfTrimmed(s);
    }
  }

  /** Trimming leaves a trimmed string alone, so `trim` is idempotent. */
  lemma TrimOfTrimmed(s: string)
    requires IsTrimmed(s)
    ensures Trim(s) == s
  {
    TrimStartOfTrimmed(s);
    TrimEndOfTrimmed(s);
  }

  /** `r` is `s[a..b]` lower-cased, with no white space at either end of the
      piece and nothing but white space outside it. */
  predicate LoweredPiece(s: string, r: string, a: int, b: int) {
    && 0 <= a <= b <= |s|
    && r == Lower(s[a..b])
    && IsTrimmed(s[a..b])
    && (forall i :: 0 <= i < a ==> IsSpace(s[i]))
    && (forall i :: b <= i < |s| ==> IsSpace(s[i]))
  }

  /** `s.toLowerCase().trim()` is the lower-cased piece of `s` that `trim` keeps. */
  lemma TrimLowerIsPiece(s: string)
    ensures exists a, b :: LoweredPiece(s, Trim(Lower(s)), a, b)
  {
    TrimmedIsPiece(s);
    TrimLowerUnfolded(s);
  }

  lemma TrimLowerUnfolded(s: string)
    ensures Trim(Lower(s)) == Lower(TrimEnd(TrimStart(s)))
  {
    TrimLowerCommute(s);
    assert Trim(s) == TrimEnd(TrimStart(s));
  }

  lemma TrimmedIsPiece(s: string)
    ensures exists a, b :: LoweredPiece(s, Lower(TrimEnd(TrimStart(s))), a, b)
  {
    var t := TrimStart(s);
    TrimStartDropsSpaces(s);
    TrimEndDropsSpaces(t);
    TrimBothEnds(s);
    PieceOfSuffix(s, t, TrimEnd(t));
  }

  /** A trimmed prefix `r` of a suffix `t` of `s`, with only white space cut on
      either side, is a lowered piece of `s` once lower-cased. */
  lemma PieceOfSuffix(s: string, t: string, r: string)
    requires |t| <= |s| && t == s[|s| - |t|..]
    requires |r| <= |t| && r == t[..|r|]
    requires IsTrimmed(r)
    requires forall i :: 0 <= i < |s| - |t| ==> IsSpace(s[i])
    requires forall i :: |r| <= i < |t| ==> IsSpace(t[i])
    ensures LoweredPiece(s, Lower(r), |s| - |t|, |s| - |t| + |r|)
  {
    var a := |s| - |t|;
    assert s[a..a + |r|] == r;
    forall i | a + |r| <= i < |s| ensures IsSpace(s[i]) {
      assert s[i] == t[i - a];
    }
  }

  /** A lower-case, trimmed string is its own `Trim(Lower(_))`. */
  lemma TrimLowerOfClean(s: string)
    ensures IsLowerCase(s) && IsTrimmed(s) ==> Trim(Lower(s)) == s
  {
    if IsLowerCase(s) && IsTrimmed(s) {
      LowerOfLowerCase(s);
      TrimOfTrimmed(s);
    }
  }

  lemma TrimIdempotent(s: string)
    ensures Trim(Trim(s)) == Trim(s)
  {
    TrimOfTrimmed(Trim(s));
  }

  lemma LowerCharKeepsSpace(c: char)
    ensures IsSpace(LowerChar(c)) <==> IsSpace(c)
  {
  }

  lemma {:induction false} TrimStartLower(s: string)
    ensures TrimStart(Lower(s)) == Lower(TrimStart(s))
    decreases |s|
  {
    if |s| > 0 {
      LowerCharKeepsSpace(s[0]);
      assert Lower(s)[1..] == Lower(s[1..]);
      TrimStartLower(s[1..]);
    }
  }

  lemma {:induction false} TrimEndLower(s: string)
    ensures TrimEnd(Lower(s)) == Lower(TrimEnd(s))
    decreases |s|
  {
    if |s| > 0 {
      LowerCharKeepsSpace(s[|s| - 1]);
      assert Lower(s)[..|s| - 1] == Lower(s[..|s| - 1]);
      TrimEndLower(s[..|s| - 1]);
    }
  }

  /** `s.toLowerCase().trim()` and `s.trim().toLowerCase()` agree. */
  lemma TrimLowerCommute(s: string)
    ensures Trim(Lower(s)) == Lower(Trim(s))
  {
    TrimStartLower(s);
    TrimEndLower(TrimStart(s));
  }

  /** `Trim(Lower(s))` is a fixed point of both operations. */
  lemma TrimLowerFixedPoint(s: string)
    ensures IsLowerCase(Trim(Lower(s)))
    ensures Lower(Trim(Lower(s))) == Trim(Lower(s))
    ensures Trim(Trim(Lower(s))) == Trim(Lower(s))
  {
    TrimLowerCommute(s);
    LowerIsLowerCase(Trim(s));
    LowerOfLowerCase(Lower(Trim(s)));
    TrimIdempotent(Lower(s));
  }

  // ---------------------------------------------------------------- searching

  /** `sub` occurs in `s` starting at index `i`. */
  predicate MatchAt(s: string, sub: string, i: int) {
    0 <= i && i + |sub| <= |s| && s[i..i + |sub|] == sub
  }

  /** `s.includes(sub)` (the empty string is included everywhere). */
  predicate Contains(s: string, sub: string) {
    exists i | 0 <= i <= |s| - |sub| :: MatchAt(s, sub, i)
  }

  /** `s.startsWith(p)` */
  predicate StartsWith(s: string, p: string) {
    |p| <= |s| && s[..|p|] == p
  }

  /** `s.endsWith(p)` */
  predicate EndsWith(s: string, p: string) {
    |p| <= |s| && s[|s| - |p|..] == p
  }

  lemma ContainsEmpty(s: string)
    ensures Contains(s, "")
  {
    assert MatchAt(s, "", 0);
  }

  /** `includes` is transitive. */
  lemma ContainsTrans(s: string, mid: string, sub: string)
    requires Contains(s, mid) && Contains(mid, sub)
    ensures Contains(s, sub)
  {
    var i :| 0 <= i <= |s| - |mid| && MatchAt(s, mid, i);
    var j :| 0 <= j <= |mid| - |sub| && MatchAt(mid, sub, j);
    forall k | 0 <= k < |sub| ensures s[i + j + k] == sub[k] {
      assert mid[j..j + |sub|][k] == sub[k];
      assert s[i..i + |mid|][j + k] == mid[j + k];
    }
    assert s[i + j..i + j + |sub|] == sub;
    assert MatchAt(s, sub, i + j);
  }

  /** Upper-casing forgets any earlier lower-casing. */
  lemma UpperOfLower(s: string)
    ensures Upper(Lower(s)) == Upper(s)
  {
  }

  // ---------------------------------------------------------------- split and join

  /** `s.split(/[seps]/)`: the pieces between separator characters; never empty. */
  function Split(s: string, seps: set<char>): (parts: seq<string>)
    ensures |parts| >= 1
    ensures forall k, c :: 0 <= k < |parts| && c in parts[k] ==> c !in seps
    decreases |s|
  {
    if |s| == 0 then [""]
    else
      var rest := Split(s[1..], seps);
      if s[0] in seps then [""] + rest
      else [[s[0]] + rest[0]] + rest[1..]
  }

  /** `parts.join(sep)` */
  function Join(parts: seq<string>, sep: string): string
    decreases |parts|
  {
    if |parts| == 0 then ""
    else if |parts| == 1 then parts[0]
    else parts[0] + sep + Join(parts[1..], sep)
  }

  /** Every separator character of `s` replaced by `d`. */
  function ReplaceSeps(s: string, seps: set<char>, d: char): (r: string)
    ensures |r| == |s|
  {
    seq(|s|, i requires 0 <= i < |s| => if s[i] in seps then d else s[i])
  }

  /** Splitting and re-joining with one character puts that character where every
      separator was. */
  lemma {:induction false} JoinSplit(s: string, seps: set<char>, d: char)
    ensures Join(Split(s, seps), [d]) == ReplaceSeps(s, seps, d)
    decreases |s|
  {
    if |s| > 0 {
      var rest := Split(s[1..], seps);
      JoinSplit(s[1..], seps, d);
      ReplaceSepsCons(s, seps, d);
      if s[0] in seps {
        assert Join([""] + rest, [d]) == "" + [d] + Join(rest, [d]);
      } else {
        JoinExtendsHead(s[0], rest, [d]);
      }
    }
  }

  lemma ReplaceSepsCons(s: string, seps: set<char>, d: char)
    requires |s| > 0
    ensures ReplaceSeps(s, seps, d) == [if s[0] in seps then d else s[0]] + ReplaceSeps(s[1..], seps, d)
  {
  }

  /** Prefixing the first part prefixes the joined string. */
  lemma JoinExtendsHead(c: char, parts: seq<string>, sep: string)
    requires |parts| >= 1
    ensures Join([[c] + parts[0]] + parts[1..], sep) == [c] + Join(parts, sep)
  {
    var ext := [[c] + parts[0]] + parts[1..];
    if |parts| > 1 {
      assert ext[1..] == parts[1..];
    }
  }

  /** A string free of separators splits into itself. */
  lemma {:induction false} SplitNoSeps(p: string, seps: set<char>)
    requires forall c :: c in p ==> c !in seps
    ensures Split(p, seps) == [p]
    decreases |p|
  {
    if |p| > 0 {
      assert forall c :: c in p[1..] ==> c in p;
      SplitNoSeps(p[1..], seps);
      assert [p[0]] + p[1..] == p;
    }
  }

  /** The first separator of `p + [sep] + t` closes the first piece. */
  lemma {:induction false} SplitAtFirstSep(p: string, sep: char, t: string, seps: set<char>)
    requires sep in seps
    requires forall c :: c in p ==> c !in seps
    ensures Split(p + [sep] + t, seps) == [p] + Split(t, seps)
    decreases |p|
  {
    if |p| == 0 {
      assert p + [sep] + t == [sep] + t;
      assert ([sep] + t)[1..] == t;
    } else {
      assert forall c :: c in p[1..] ==> c in p;
      SplitAtFirstSep(p[1..], sep, t, seps);
      assert (p + [sep] + t)[1..] == p[1..] + [sep] + t;
      assert [p[0]] + p[1..] == p;
    }
  }

  /** Joining separator-free pieces and splitting again gives the pieces back. */
  lemma {:induction false} SplitJoin(parts: seq<string>, sep: char, seps: set<char>)
    requires |parts| >= 1 && sep in seps
    requires forall k, c :: 0 <= k < |parts| && c in parts[k] ==> c !in seps
    ensures Split(Join(parts, [sep]), seps) == parts
    decreases |parts|
  {
    if |parts| == 1 {
      SplitNoSeps(parts[0], seps);
    } else {
      SplitJoin(parts[1..], sep, seps);
      assert Join(parts, [sep]) == parts[0] + [sep] + Join(parts[1..], [sep]);
      SplitAtFirstSep(parts[0], sep, Join(parts[1..], [sep]), seps);
      assert [parts[0]] + parts[1..] == parts;
    }
  }

  /** `split` yields more than one piece exactly when a separator occurs. */
  lemma {:induction false} SplitManyIffSep(s: string, seps: set<char>)
    ensures |Split(s, seps)| > 1 <==> exists i :: 0 <= i < |s| && s[i] in seps
    decreases |s|
  {
    if |s| > 0 {
      SplitManyIffSep(s[1..], seps);
      if exists i :: 0 <= i < |s[1..]| && s[1..][i] in seps {
        var i :| 0 <= i < |s[1..]| && s[1..][i] in seps;
        assert s[i + 1] in seps;
      }
      if exists i :: 0 <= i < |s| && s[i] in seps {
        var i :| 0 <= i < |s| && s[i] in seps;
        if i > 0 {
          assert s[1..][i - 1] in seps;
        }
      }
    }
  }

  // ---------------------------------------------------------------- sequences

  predicate NoDuplicates<T(==)>(xs: seq<T>) {
    forall i, j :: 0 <= i < j < |xs| ==> xs[i] != xs[j]
  }

  /** `Array.from(new Set(xs))`: first occurrences, in order. */
  function Dedup<T(==,!new)>(xs: seq<T>): (r: seq<T>)
    ensures NoDuplicates(r)
    ensures forall x :: x in r <==> x in xs
    ensures |r| <= |xs|
    decreases |xs|
  {
    if |xs| == 0 then []
    else
      var r := Dedup(xs[..|xs| - 1]);
      assert forall x :: x in xs <==> x in xs[..|xs| - 1] || x == xs[|xs| - 1];
      if xs[|xs| - 1] in r then r else r + [xs[|xs| - 1]]
  }

  /** A duplicate-free sequence is its own set-conversion, so `Dedup` is idempotent. */
  lemma {:induction false} DedupOfDistinct<T(!new)>(xs: seq<T>)
    requires NoDuplicates(xs)
    ensures Dedup(xs) == xs
    decreases |xs|
  {
    if |xs| > 0 {
      var init := xs[..|xs| - 1];
      DedupOfDistinct(init);
      assert xs[|xs| - 1] !in init;
      assert init + [xs[|xs| - 1]] == xs;
    }
  }

  /** The members of a pointwise image are exactly the images of the members. */
  lemma MapMembers<A, B>(xs: seq<A>, ys: seq<B>, f: A -> B)
    requires |ys| == |xs| && forall i :: 0 <= i < |xs| ==> ys[i] == f(xs[i])
    ensures forall i :: 0 <= i < |xs| ==> f(xs[i]) in ys
    ensures forall y :: y in ys ==> exists i :: 0 <= i < |xs| && f(xs[i]) == y
  {
    forall y | y in ys ensures exists i :: 0 <= i < |xs| && f(xs[i]) == y {
      var i :| 0 <= i < |ys| && ys[i] == y;
    }
  }

  /** `xs.filter(Boolean)` over strings: the non-empty ones, in order. */
  function DropEmpty(xs: seq<string>): (r: seq<string>)
    ensures forall x :: x in r <==> x in xs && x != ""
    ensures |r| <= |xs|
    decreases |xs|
  {
    if |xs| == 0 then []
    else (if xs[0] == "" then [] else [xs[0]]) + DropEmpty(xs[1..])
  }

  // ---------------------------------------------------------------- decimals

  function DigitChar(d: nat): (c: char)
    requires d < 10
    ensures '0' <= c <= '9'
  {
    ('0' as int + d) as char
  }

  predicate IsDigits(s: string) {
    forall i :: 0 <= i < |s| ==> '0' <= s[i] <= '9'
  }

  /** `n.toString()` for a non-negative integer. */
  function NatToString(n: nat): (r: string)
    ensures |r| >= 1 && IsDigits(r)
    ensures r[0] == '0' <==> n == 0
    ensures n < 10 <==> |r| == 1
    decreases n
  {
    if n < 10 then [DigitChar(n)] else NatToString(n / 10) + [DigitChar(n % 10)]
  }

  /** The value of a string of decimal digits. */
  function DigitsValue(s: string): nat
    requires IsDigits(s)
    decreases |s|
  {
    if |s| == 0 then 0
    else DigitsValue(s[..|s| - 1]) * 10 + (s[|s| - 1] as int - '0' as int)
  }

  /** Decimal rendering is faithful: reading the digits back gives the number. */
  lemma {:induction false} NatToStringRoundTrip(n: nat)
    ensures DigitsValue(NatToString(n)) == n
    decreases n
  {
    var s := NatToString(n);
    if n >= 10 {
      NatToStringRoundTrip(n / 10);
      assert s[..|s| - 1] == NatToString(n / 10);
    }
  }
}
