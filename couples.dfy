/** Pairing a day's journal entries into couples (`cron_generate_reflections`)
    and finding both partners' entries for one reflection
    (`generate_reflection`, `backfill_reflection`) in backend/server.py. */
module Couples {
  import opened Common
  import opened Records

  /** One couple's entries, by author. */
  type Group = map<UserId, JournalEntry>

  /** The cron pass's `couples` dict. */
  type CoupleMap = map<Pair, Group>

  /** An entry takes part in pairing when its `shared_with` list is non-empty;
      its couple key pairs its author with the first id of that list. */
  predicate KeyedBy(e: JournalEntry, k: Pair)
  {
    e.sharedWith != [] && CoupleKey(e.userId, e.sharedWith[0]) == k
  }

  /** The grouping loop of the cron pass, entry by entry: entries without a
      partner are skipped, and a later entry by the same author under the
      same key replaces the earlier one. */
  function GroupByCouple(es: seq<JournalEntry>): CoupleMap
  {
    if es == [] then map[]
    else
      var g := GroupByCouple(es[..|es| - 1]);
      var e := es[|es| - 1];
      if e.sharedWith == [] then g
      else
        var k := CoupleKey(e.userId, e.sharedWith[0]);
        var members := if k in g then g[k] else map[];
        g[k := members[e.userId := e]]
  }

  /** The last entry of `es` written by `u` under couple key `k`. */
  function LastFor(es: seq<JournalEntry>, k: Pair, u: UserId): (r: Option<JournalEntry>)
    ensures r.None? <==> forall i :: 0 <= i < |es| ==> !(es[i].userId == u && KeyedBy(es[i], k))
    ensures r.Some? ==> exists i :: (0 <= i < |es| && es[i] == r.value
      && (forall j :: i < j < |es| ==> !(es[j].userId == u && KeyedBy(es[j], k))))
    ensures r.Some? ==> r.value.userId == u && KeyedBy(r.value, k) && (u == k.lo || u == k.hi)
  {
    if es == [] then None
    else
      var e := es[|es| - 1];
      if e.userId == u && KeyedBy(e, k) then Some(e)
      else
        var r := LastFor(es[..|es| - 1], k, u);
        assert forall i :: 0 <= i < |es| - 1 ==> es[..|es| - 1][i] == es[i];
        if r.Some? then LastForStep(es, k, u, r.value); r else r
  }

  /** A match found before the last entry stays the last match when the
      last entry does not match. */
  lemma LastForStep(es: seq<JournalEntry>, k: Pair, u: UserId, e: JournalEntry)
    requires es != [] && !(es[|es| - 1].userId == u && KeyedBy(es[|es| - 1], k))
    requires var p := es[..|es| - 1];
      exists i :: (0 <= i < |p| && p[i] == e && (forall j :: i < j < |p| ==> !(p[j].userId == u && KeyedBy(p[j], k))))
    ensures exists i :: (0 <= i < |es| && es[i] == e
      && (forall j :: i < j < |es| ==> !(es[j].userId == u && KeyedBy(es[j], k))))
  {
    var p := es[..|es| - 1];
    var i :| 0 <= i < |p| && p[i] == e && (forall j :: i < j < |p| ==> !(p[j].userId == u && KeyedBy(p[j], k)));
    forall j | i < j < |es|
      ensures !(es[j].userId == u && KeyedBy(es[j], k))
    {
      if j < |p| {
        assert p[j] == es[j];
      }
    }
    assert es[i] == p[i];
  }

  /** What the grouping holds: every group is non-empty, and author `u` is in
      group `k` exactly when `u` wrote an entry keyed by `k`; the group then
      holds `u`'s last such entry. */
  lemma {:induction false} GroupByCoupleMeaning(es: seq<JournalEntry>, k: Pair, u: UserId)
    ensures var g := GroupByCouple(es);
      && (k in g ==> |g[k]| > 0)
      && ((k in g && u in g[k]) <==> LastFor(es, k, u).Some?)
      && (k in g && u in g[k] ==> g[k][u] == LastFor(es, k, u).value)
  {
    if es != [] {
      var e := es[|es| - 1];
      GroupByCoupleMeaning(es[..|es| - 1], k, u);
      if e.sharedWith != [] && CoupleKey(e.userId, e.sharedWith[0]) == k && e.userId != u {
        GroupByCoupleMeaning(es[..|es| - 1], k, e.userId);
      }
    }
  }

  /** Every author in a group is one of the two members of its key. */
  lemma GroupMembersAreKeyMembers(es: seq<JournalEntry>, k: Pair)
    requires k in GroupByCouple(es)
    ensures GroupByCouple(es)[k].Keys <= {k.lo, k.hi}
  {
    forall u | u in GroupByCouple(es)[k]
      ensures u == k.lo || u == k.hi
    {
      GroupByCoupleMeaning(es, k, u);
    }
  }

  /** A couple qualifies for a reflection when its group has exactly two
      entries (`len(entries) == 2`). */
  predicate Eligible(g: CoupleMap, k: Pair)
  {
    k in g && |g[k]| == 2
  }

  /** A subset is no larger than its superset, and a proper subset is
      smaller. */
  lemma {:induction false} SubsetCard<T>(a: set<T>, b: set<T>)
    requires a <= b
    ensures |a| <= |b|
    ensures a != b ==> |a| < |b|
    decreases |b|
  {
    if b == {} {
      assert a == {};
    } else {
      var x :| x in b;
      SubsetCard(a - {x}, b - {x});
      assert |b - {x}| == |b| - 1;
      assert x in a ==> |a - {x}| == |a| - 1;
      assert x !in a ==> a - {x} == a;
      if a != b {
        var y :| y in b && y !in a;
        assert y == x || (y in b - {x} && y !in a - {x});
      }
    }
  }

  lemma TwoOfPair(s: set<UserId>, a: UserId, b: UserId)
    requires s <= {a, b} && |s| == 2
    ensures a != b && s == {a, b}
  {
    SubsetCard(s, {a, b});
    assert a == b ==> {a, b} == {a};
  }

  /** A couple is eligible exactly when its two members are distinct and each
      wrote an entry under that key, so the lookups of both members' entries
      in an eligible group cannot fail. */
  lemma EligibleIffBothWrote(es: seq<JournalEntry>, k: Pair)
    ensures Eligible(GroupByCouple(es), k) <==>
      k.lo != k.hi && LastFor(es, k, k.lo).Some? && LastFor(es, k, k.hi).Some?
    ensures Eligible(GroupByCouple(es), k) ==>
      GroupByCouple(es)[k].Keys == {k.lo, k.hi}
  {
    var g := GroupByCouple(es);
    GroupByCoupleMeaning(es, k, k.lo);
    GroupByCoupleMeaning(es, k, k.hi);
    if k in g {
      GroupMembersAreKeyMembers(es, k);
      if |g[k]| == 2 {
        TwoOfPair(g[k].Keys, k.lo, k.hi);
      }
      if k.lo != k.hi && k.lo in g[k] && k.hi in g[k] {
        assert g[k].Keys == {k.lo, k.hi};
        assert |g[k].Keys| == 2;
      }
    }
  }

  /** Builds the `couples` dict in place, as the cron pass does. */
  method GroupCouples(es: seq<JournalEntry>) returns (couples: CoupleMap)
    ensures couples == GroupByCouple(es)
  {
    couples := map[];
    for i := 0 to |es|
      invariant couples == GroupByCouple(es[..i])
    {
      var e := es[i];
      assert es[..i + 1][..i] == es[..i];
      if e.sharedWith != [] {
        var key := CoupleKey(e.userId, e.sharedWith[0]);
        if key !in couples {
          couples := couples[key := map[]];
        }
        couples := couples[key := couples[key][e.userId := e]];
      }
    }
    assert es[..|es|] == es;
  }

  /** The last entry of `es` written by `u`. */
  function LastBy(es: seq<JournalEntry>, u: UserId): (r: Option<JournalEntry>)
    ensures r.None? <==> forall i :: 0 <= i < |es| ==> es[i].userId != u
    ensures r.Some? ==> exists i :: (0 <= i < |es| && es[i] == r.value
      && (forall j :: i < j < |es| ==> es[j].userId != u))
    ensures r.Some? ==> r.value.userId == u
  {
    if es == [] then None
    else if es[|es| - 1].userId == u then Some(es[|es| - 1])
    else
      var r := LastBy(es[..|es| - 1], u);
      assert forall i :: 0 <= i < |es| - 1 ==> es[..|es| - 1][i] == es[i];
      if r.Some? then LastByStep(es, u, r.value); r else r
  }

  /** A match found before the last entry stays the last match when the
      last entry is someone else's. */
  lemma LastByStep(es: seq<JournalEntry>, u: UserId, e: JournalEntry)
    requires es != [] && es[|es| - 1].userId != u
    requires var p := es[..|es| - 1];
      exists i :: (0 <= i < |p| && p[i] == e && (forall j :: i < j < |p| ==> p[j].userId != u))
    ensures exists i :: (0 <= i < |es| && es[i] == e && (forall j :: i < j < |es| ==> es[j].userId != u))
  {
    var p := es[..|es| - 1];
    var i :| 0 <= i < |p| && p[i] == e && (forall j :: i < j < |p| ==> p[j].userId != u);
    forall j | i < j < |es|
      ensures es[j].userId != u
    {
      if j < |p| {
        assert p[j] == es[j];
      }
    }
    assert es[i] == p[i];
  }

  /** The lookup loop of `generate_reflection` and `backfill_reflection`:
      each partner's last entry of the day. Because the partner test is an
      `elif`, a partner equal to the user is never found. Missing either
      entry is an error. */
  method FindPairEntries(es: seq<JournalEntry>, userId: UserId, partnerId: UserId)
    returns (r: Result<(JournalEntry, JournalEntry)>)
    ensures r.Ok? <==> LastBy(es, userId).Some? && LastBy(es, partnerId).Some? && userId != partnerId
    ensures r.Ok? ==> r.value == (LastBy(es, userId).value, LastBy(es, partnerId).value)
    ensures r.Err? ==> r.error == MissingEntries
  {
    var userEntry: Option<JournalEntry> := None;
    var partnerEntry: Option<JournalEntry> := None;
    for i := 0 to |es|
      invariant userEntry == LastBy(es[..i], userId)
      invariant partnerEntry == if userId == partnerId then None else LastBy(es[..i], partnerId)
    {
      assert es[..i + 1][..i] == es[..i];
      if es[i].userId == userId {
        userEntry := Some(es[i]);
      } else if es[i].userId == partnerId {
        partnerEntry := Some(es[i]);
      }
    }
    assert es[..|es|] == es;
    if userEntry.None? || partnerEntry.None? {
      return Err(MissingEntries);
    }
    r := Ok((userEntry.value, partnerEntry.value));
  }
}
