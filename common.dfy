/** Shared vocabulary of the couples-journal backend: results and errors,
    user ids, Python's string ordering, the canonical couple key and
    `str.strip`. */
module Common {

  datatype Option<+T> = None | Some(value: T)

  /** The HTTP handlers turn every failure into an `HTTPException`; the model
      keeps the reason and drops the status code. */
  datatype Error =
    | ProfileNotFound
    | UserNotFound
    | NoPartner
    | MissingEntries
    | InvalidInviteCode
    | SelfInvite
    | NoDataToUpdate
    | EntryNotFound
    | NotAudio
    | UploadFailed
    | InvalidDate
    | DateOverflow
    | EmailTaken
    | Unauthorized

  datatype Result<+T> = Ok(value: T) | Err(error: Error)

  /** User ids are the string form of a uuid, compared as strings. */
  type UserId = string

  /** Python's `<` on `str`: lexicographic on code points, a proper prefix
      being smaller. */
  predicate StrLt(a: string, b: string)
    decreases |a|
  {
    if a == [] then b != []
    else if b == [] then false
    else if a[0] != b[0] then a[0] < b[0]
    else StrLt(a[1..], b[1..])
  }

  /** `<` on strings is a strict total order: irreflexive, asymmetric and
      total on distinct strings. */
  lemma {:induction false} StrLtTrichotomy(a: string, b: string)
    ensures !StrLt(a, a)
    ensures !(StrLt(a, b) && StrLt(b, a))
    ensures a != b ==> StrLt(a, b) || StrLt(b, a)
    decreases |a|
  {
    if a != [] && b != [] {
      StrLtTrichotomy(a[1..], b[1..]);
      StrLtTrichotomy(a[1..], a[1..]);
      if a[0] == b[0] && a != b {
        assert a == [a[0]] + a[1..] && b == [b[0]] + b[1..];
      }
    } else if a != [] {
      StrLtTrichotomy(a[1..], a[1..]);
    }
  }

  /** The sorted pair `tuple(sorted([a, b]))` that keys a couple. */
  datatype Pair = Pair(lo: UserId, hi: UserId)

  /** `sorted([a, b])`: Python's sort is stable and uses only `<`, so the
      arguments are swapped exactly when `b < a`. */
  function CoupleKey(a: UserId, b: UserId): (k: Pair)
    ensures {k.lo, k.hi} == {a, b}
    ensures !StrLt(k.hi, k.lo)
  {
    StrLtTrichotomy(a, b);
    if StrLt(b, a) then Pair(b, a) else Pair(a, b)
  }

  /** (A, B) and (B, A) land on the same couple key. */
  lemma CoupleKeySymmetric(a: UserId, b: UserId)
    ensures CoupleKey(a, b) == CoupleKey(b, a)
  {
    StrLtTrichotomy(a, b);
  }

  /** A sorted pair is its own key. */
  lemma CoupleKeyOfSorted(k: Pair)
    requires !StrLt(k.hi, k.lo)
    ensures CoupleKey(k.lo, k.hi) == k
  {
    StrLtTrichotomy(k.lo, k.hi);
  }

  /** `next((x for x in s if p(x)), None)`: the first element that
      satisfies `p`. */
  function First<T>(s: seq<T>, p: T -> bool): Option<T>
  {
    if s == [] then None
    else if p(s[0]) then Some(s[0])
    else First(s[1..], p)
  }

  /** `First` finds nothing exactly when no element satisfies `p`, and
      otherwise the earliest element that does. */
  lemma {:induction false} FirstMeaning<T>(s: seq<T>, p: T -> bool)
    ensures First(s, p).None? <==> forall i :: 0 <= i < |s| ==> !p(s[i])
    ensures First(s, p).Some? ==> exists i :: (0 <= i < |s| && s[i] == First(s, p).value && p(s[i])
      && forall j :: 0 <= j < i ==> !p(s[j]))
  {
    if s != [] && !p(s[0]) {
      FirstMeaning(s[1..], p);
      assert forall i :: 0 < i < |s| ==> s[1..][i - 1] == s[i];
      var r := First(s[1..], p);
      if r.Some? {
        var i :| 0 <= i < |s[1..]| && s[1..][i] == r.value && p(s[1..][i])
          && forall j :: 0 <= j < i ==> !p(s[1..][j]);
        assert s[i + 1] == r.value && forall j :: 0 <= j < i + 1 ==> !p(s[j]);
      }
    }
  }

  /** `r` is what a first-match lookup of `p` in `s` must give: nothing
      exactly when no element matches, and otherwise the earliest match. */
  ghost predicate IsFirstMatch<T>(s: seq<T>, p: T -> bool, r: Option<T>)
  {
    && (r.None? <==> forall i :: 0 <= i < |s| ==> !p(s[i]))
    && (r.Some? ==> exists i :: (0 <= i < |s| && s[i] == r.value && p(s[i])
      && forall j :: 0 <= j < i ==> !p(s[j])))
  }

  /** `First` is a first-match lookup. */
  lemma FirstIsFirstMatch<T>(s: seq<T>, p: T -> bool)
    ensures IsFirstMatch(s, p, First(s, p))
  {
    FirstMeaning(s, p);
  }

  /** Looking past the end of a sequence: the first match of `s + [x]` is
      the first match of `s`, or `x` itself when `s` has none. */
  lemma {:induction false} FirstAppend<T>(s: seq<T>, x: T, p: T -> bool)
    ensures First(s + [x], p) == if First(s, p).Some? then First(s, p) else if p(x) then Some(x) else None
  {
    if s != [] {
      assert (s + [x])[0] == s[0] && (s + [x])[1..] == s[1..] + [x];
      FirstAppend(s[1..], x, p);
    }
  }

  /** The position of the first element that satisfies `p`, or -1: which
      document `update_one` and `find_one` pick. */
  function FirstIndex<T>(s: seq<T>, p: T -> bool): (k: int)
    ensures -1 <= k < |s|
    ensures k == -1 ==> First(s, p).None? && forall i :: 0 <= i < |s| ==> !p(s[i])
    ensures k >= 0 ==> p(s[k]) && First(s, p) == Some(s[k])
    ensures k >= 0 ==> forall j :: 0 <= j < k ==> !p(s[j])
  {
    if s == [] then -1
    else if p(s[0]) then 0
    else
      var k := FirstIndex(s[1..], p);
      if k == -1 then -1 else k + 1
  }

  /** The elements of `s` that satisfy `p`, in order: what a `find` with a
      filter returns. */
  function Filter<T(!new)>(s: seq<T>, p: T -> bool): (r: seq<T>)
    ensures |r| <= |s|
    ensures forall i :: 0 <= i < |r| ==> p(r[i])
    ensures forall x :: x in r <==> x in s && p(x)
  {
    if s == [] then []
    else
      var r := Filter(s[..|s| - 1], p);
      assert s == s[..|s| - 1] + [s[|s| - 1]];
      if p(s[|s| - 1]) then r + [s[|s| - 1]] else r
  }

  /** Two sequences whose elements match at the same positions have their
      first match at the same position. */
  lemma FirstIndexSameMatches<T, U>(s: seq<T>, p: T -> bool, t: seq<U>, q: U -> bool)
    requires |s| == |t| && forall i :: 0 <= i < |s| ==> p(s[i]) == q(t[i])
    ensures FirstIndex(s, p) == FirstIndex(t, q)
  {
    var k, l := FirstIndex(s, p), FirstIndex(t, q);
    if k >= 0 && l >= 0 {
      assert !(k < l) && !(l < k);
    }
  }

  /** A sorted pair is the only sorted arrangement of its two members: the
      couple key of `a` and `b` is the unique sorted pair holding them. */
  lemma SortedPairUnique(p: Pair, a: UserId, b: UserId)
    requires !StrLt(p.hi, p.lo) && {p.lo, p.hi} == {a, b}
    ensures p == CoupleKey(a, b)
  {
    StrLtTrichotomy(a, b);
    assert p.lo == a || p.lo == b;
  }

  predicate StartsWith(s: string, prefix: string)
  {
    |prefix| <= |s| && s[..|prefix|] == prefix
  }

  /** The characters for which Python's `str.isspace()` holds. */
  predicate IsSpace(c: char)
  {
    c == ' ' || ('\t' <= c <= '\r') || ('\U{1c}' <= c <= '\U{1f}')
    || c == '\U{85}' || c == '\U{a0}' || c == '\U{1680}'
    || ('\U{2000}' <= c <= '\U{200a}') || c == '\U{2028}' || c == '\U{2029}'
    || c == '\U{202f}' || c == '\U{205f}' || c == '\U{3000}'
  }

  predicate AllSpace(s: string)
  {
    forall k :: 0 <= k < |s| ==> IsSpace(s[k])
  }

  /** Number of whitespace characters at the front of `s`. */
  function LeadingSpaces(s: string): (n: nat)
    ensures n <= |s|
    ensures AllSpace(s[..n])
    ensures n < |s| ==> !IsSpace(s[n])
  {
    if s == [] || !IsSpace(s[0]) then 0
    else
      var m := LeadingSpaces(s[1..]);
      assert s[..m + 1] == [s[0]] + s[1..][..m];
      m + 1
  }

  /** Number of whitespace characters at the back of `s`. */
  function TrailingSpaces(s: string): (n: nat)
    ensures n <= |s|
    ensures AllSpace(s[|s| - n..])
    ensures n < |s| ==> !IsSpace(s[|s| - n - 1])
  {
    if s == [] || !IsSpace(s[|s| - 1]) then 0
    else
      var m := TrailingSpaces(s[..|s| - 1]);
      assert s[|s| - (m + 1)..] == s[..|s| - 1][|s| - 1 - m..] + [s[|s| - 1]];
      m + 1
  }

  /** Python's `str.strip()`. */
  function Strip(s: string): string
  {
    var t := s[LeadingSpaces(s)..];
    t[..|t| - TrailingSpaces(t)]
  }

  /** `r` occurs in `s` at `i` with nothing but whitespace before and after it. */
  predicate SpaceFramed(s: string, i: nat, r: string)
  {
    i <= |s| - |r| && s[i..i + |r|] == r && AllSpace(s[..i]) && AllSpace(s[i + |r|..])
  }

  /** `s` is the stripped text framed by whitespace, and the stripped text
      neither starts nor ends with whitespace. */
  lemma StripMeaning(s: string)
    ensures exists i :: SpaceFramed(s, i, Strip(s))
    ensures var r := Strip(s);
      r != [] ==> !IsSpace(r[0]) && !IsSpace(r[|r| - 1])
  {
    StripFramed(s);
    StripTrimmed(s);
  }

  lemma StripFramed(s: string)
    ensures exists i :: SpaceFramed(s, i, Strip(s))
  {
    var i := LeadingSpaces(s);
    var t := s[i..];
    var n := TrailingSpaces(t);
    var r := t[..|t| - n];
    assert Strip(s) == r;
    StripFrame(s, i, t, n, r);
  }

  lemma StripTrimmed(s: string)
    ensures var r := Strip(s);
      r != [] ==> !IsSpace(r[0]) && !IsSpace(r[|r| - 1])
  {
    var i := LeadingSpaces(s);
    var t := s[i..];
    var n := TrailingSpaces(t);
    var r := t[..|t| - n];
    assert Strip(s) == r;
    StripEdges(s, i, t, n, r);
  }

  /** The stripped text sits between the leading and trailing whitespace. */
  lemma StripFrame(s: string, i: nat, t: string, n: nat, r: string)
    requires i <= |s| && AllSpace(s[..i]) && t == s[i..]
    requires n <= |t| && AllSpace(t[|t| - n..]) && r == t[..|t| - n]
    ensures SpaceFramed(s, i, r)
  {
    assert s[i + |r|..] == t[|t| - n..];
  }

  /** The stripped text starts and ends where the whitespace counts stop. */
  lemma StripEdges(s: string, i: nat, t: string, n: nat, r: string)
    requires i <= |s| && (i < |s| ==> !IsSpace(s[i])) && t == s[i..]
    requires n <= |t| && (n < |t| ==> !IsSpace(t[|t| - n - 1])) && r == t[..|t| - n]
    ensures r != [] ==> !IsSpace(r[0]) && !IsSpace(r[|r| - 1])
  {
    if r != [] {
      assert r[0] == s[i];
      assert r[|r| - 1] == t[|t| - n - 1];
    }
  }

  /** Stripping twice strips nothing more. */
  lemma StripIdempotent(s: string)
    ensures Strip(Strip(s)) == Strip(s)
  {
    var r := Strip(s);
    if r != [] {
      assert LeadingSpaces(r) == 0;
      assert r[0..] == r;
      assert TrailingSpaces(r) == 0;
      assert r[..|r|] == r;
    }
  }
}
