/** The relational store behind backend/server.py and the handlers that
    change it: the nightly reflection pass, on-demand and backfilled
    reflections, partner linking, read receipts, entry updates and audio
    uploads. Query results are taken in table order; row-level access
    control is not modelled, so every query sees every row. */
module Supabase {
  import opened Common
  import opened Records
  import opened Couples
  import opened Helpers
  import Streaks

  /** A stored reflection is found by its date and the sorted pair of its
      two users. */
  type ReflectionKey = (int, Pair)

  /** Every stored reflection belongs to two distinct users kept in sorted
      order, the form in which all three writers store `user_ids`. */
  predicate SortedKeys(m: map<ReflectionKey, string>)
  {
    forall key :: key in m ==> key.1.lo != key.1.hi && !StrLt(key.1.hi, key.1.lo)
  }

  /** With sorted keys there is at most one reflection per date and
      unordered pair: whichever way round `a` and `b` are given, the only
      key that can hold them is `(date, CoupleKey(a, b))`. */
  lemma OneReflectionPerCouple(m: map<ReflectionKey, string>, key: ReflectionKey, a: UserId, b: UserId)
    requires SortedKeys(m) && key in m && {key.1.lo, key.1.hi} == {a, b}
    ensures key == (key.0, CoupleKey(a, b)) && key == (key.0, CoupleKey(b, a))
  {
    SortedPairUnique(key.1, a, b);
    CoupleKeySymmetric(a, b);
  }

  /** `.eq("date", d)` on the journal table, in table order. */
  function OnDate(es: seq<JournalEntry>, d: int): (r: seq<JournalEntry>)
    ensures |r| <= |es|
    ensures forall i :: 0 <= i < |r| ==> r[i].date == d && r[i] in es
    ensures forall e :: e in es && e.date == d ==> e in r
  {
    if es == [] then []
    else
      var r := OnDate(es[..|es| - 1], d);
      var e := es[|es| - 1];
      assert forall x :: x in es ==> x in es[..|es| - 1] || x == e;
      if e.date == d then r + [e] else r
  }

  // ---------------------------------------------------------------------
  // cron_generate_reflections
  // ---------------------------------------------------------------------

  /** The header check: a missing or empty secret, or one that differs from
      the configured secret (possibly unset), is refused. */
  predicate CronAuthorized(cronSecret: Option<string>, expectedSecret: Option<string>)
  {
    cronSecret.Some? && cronSecret.value != "" && expectedSecret == cronSecret
  }

  /** The couples of group map `g` that get a reflection for `day`:
      eligible, not failing, and with none stored yet. */
  function Chosen(g: CoupleMap, day: int, existing: map<ReflectionKey, string>, failing: set<Pair>)
      : (ks: set<Pair>)
    ensures forall k :: k in ks <==> Eligible(g, k) && k !in failing && (day, k) !in existing
  {
    set k | k in g && |g[k]| == 2 && k !in failing && (day, k) !in existing
  }

  /** Every eligible group holds the entries of both members of its key. */
  predicate GroupsHoldBothMembers(g: CoupleMap)
  {
    forall k :: k in g && |g[k]| == 2 ==> HoldsBoth(g, k)
  }

  /** The couples the nightly pass writes a reflection for: eligible on that
      day, with no reflection stored yet, and whose store calls did not fail
      (`failing`). Each is a sorted pair of two distinct users who both
      wrote under that key, so the group holds exactly their two entries. */
  function CronCouples(es: seq<JournalEntry>, day: int, existing: map<ReflectionKey, string>,
      failing: set<Pair>): (ks: set<Pair>)
    ensures forall k :: k in ks <==>
      Eligible(GroupByCouple(OnDate(es, day)), k) && k !in failing && (day, k) !in existing
    ensures forall k :: k in ks ==> (k.lo != k.hi && !StrLt(k.hi, k.lo)
      && k in GroupByCouple(OnDate(es, day)) && GroupByCouple(OnDate(es, day))[k].Keys == {k.lo, k.hi})
  {
    var day_es := OnDate(es, day);
    var g := GroupByCouple(day_es);
    var ks := Chosen(g, day, existing, failing);
    assert forall k :: k in ks ==> k.lo != k.hi && !StrLt(k.hi, k.lo) && g[k].Keys == {k.lo, k.hi} by {
      forall k | k in ks
        ensures k.lo != k.hi && !StrLt(k.hi, k.lo) && g[k].Keys == {k.lo, k.hi}
      {
        EligibleIffBothWrote(day_es, k);
      }
    }
    ks
  }

  /** The cron grouping of any day's entries holds both members' entries in
      every eligible group. */
  lemma GroupByCoupleHoldsBothMembers(es: seq<JournalEntry>)
    ensures GroupsHoldBothMembers(GroupByCouple(es))
  {
    forall k | Eligible(GroupByCouple(es), k)
      ensures k.lo in GroupByCouple(es)[k] && k.hi in GroupByCouple(es)[k]
    {
      EligibleIffBothWrote(es, k);
    }
  }

  /** The text stored for an eligible couple: generated from the lower id's
      entry first and the higher id's entry second. */
  function CronText(g: CoupleMap, k: Pair, llm: (string, string) -> LlmOutcome): string
    requires HoldsBoth(g, k)
  {
    GenerateAiReflection(llm(g[k][k.lo].content, g[k][k.hi].content))
  }

  /** The group of `k` holds an entry of each of its two members. */
  predicate HoldsBoth(g: CoupleMap, k: Pair)
  {
    k in g && k.lo in g[k] && k.hi in g[k]
  }

  /** The reflections written for the couples `ks` of group map `g`. */
  function Writes(ks: set<Pair>, day: int, g: CoupleMap, llm: (string, string) -> LlmOutcome)
      : (w: map<ReflectionKey, string>)
    ensures forall key :: key in w <==> key.0 == day && key.1 in ks && HoldsBoth(g, key.1)
    ensures forall k :: k in ks && HoldsBoth(g, k) ==> w[(day, k)] == CronText(g, k, llm)
  {
    map k | k in ks && HoldsBoth(g, k) :: (day, k) := CronText(g, k, llm)
  }

  /** The reflection table after the nightly pass for `day`: what was there,
      plus one reflection per couple of `CronCouples`. */
  function CronRun(es: seq<JournalEntry>, day: int, existing: map<ReflectionKey, string>,
      failing: set<Pair>, llm: (string, string) -> LlmOutcome): (m: map<ReflectionKey, string>)
  {
    existing + Writes(CronCouples(es, day, existing, failing), day, GroupByCouple(OnDate(es, day)), llm)
  }

  /** The pass only adds: every stored reflection keeps its text, the new
      keys are exactly the couples of `CronCouples` on that day, and the
      table keeps its sorted keys. */
  lemma CronRunAddsOnly(es: seq<JournalEntry>, day: int, existing: map<ReflectionKey, string>,
      failing: set<Pair>, llm: (string, string) -> LlmOutcome)
    requires SortedKeys(existing)
    ensures var m := CronRun(es, day, existing, failing, llm);
      && SortedKeys(m)
      && (forall key :: key in existing ==> key in m && m[key] == existing[key])
      && (forall key :: key in m && key !in existing <==>
            key in m && key.0 == day && key.1 in CronCouples(es, day, existing, failing))
      && |m.Keys| == |existing.Keys| + |CronCouples(es, day, existing, failing)|
  {
    var g := GroupByCouple(OnDate(es, day));
    var ks := CronCouples(es, day, existing, failing);
    assert forall k :: k in ks ==> HoldsBoth(g, k);
    AddWrites(existing, ks, day, g, llm);
  }

  /** Adding the reflections of new, sorted couples to a table keeps its
      sorted keys and its rows, and adds exactly one row per couple. */
  lemma AddWrites(existing: map<ReflectionKey, string>, ks: set<Pair>, day: int, g: CoupleMap,
      llm: (string, string) -> LlmOutcome)
    requires SortedKeys(existing)
    requires forall k :: k in ks ==> (HoldsBoth(g, k) && (day, k) !in existing
      && k.lo != k.hi && !StrLt(k.hi, k.lo))
    ensures var m := existing + Writes(ks, day, g, llm);
      && SortedKeys(m)
      && (forall key :: key in existing ==> key in m && m[key] == existing[key])
      && (forall key :: key in m && key !in existing <==> key in m && key.0 == day && key.1 in ks)
      && |m.Keys| == |existing.Keys| + |ks|
  {
    AddWritesCard(existing, ks, day, g, llm);
  }

  lemma AddWritesCard(existing: map<ReflectionKey, string>, ks: set<Pair>, day: int, g: CoupleMap,
      llm: (string, string) -> LlmOutcome)
    requires forall k :: k in ks ==> HoldsBoth(g, k) && (day, k) !in existing
    ensures |(existing + Writes(ks, day, g, llm)).Keys| == |existing.Keys| + |ks|
  {
    var w := Writes(ks, day, g, llm);
    WritesKeys(ks, day, g, llm);
    assert existing.Keys !! w.Keys;
    assert (existing + w).Keys == existing.Keys + w.Keys;
  }

  /** The reflections of `ks` take one key per couple. */
  lemma WritesKeys(ks: set<Pair>, day: int, g: CoupleMap, llm: (string, string) -> LlmOutcome)
    requires forall k :: k in ks ==> HoldsBoth(g, k)
    ensures |Writes(ks, day, g, llm).Keys| == |ks|
  {
    assert Writes(ks, day, g, llm).Keys == set k | k in ks :: (day, k);
    PairImageCard(ks, day);
  }

  /** Tagging each couple with the same day loses none of them. */
  lemma {:induction false} PairImageCard(ks: set<Pair>, day: int)
    ensures |set k | k in ks :: (day, k)| == |ks|
    decreases |ks|
  {
    if ks != {} {
      var k :| k in ks;
      PairImageCard(ks - {k}, day);
      assert (set k' | k' in ks :: (day, k')) == (set k' | k' in ks - {k} :: (day, k')) + {(day, k)};
    }
  }

  /** Running the pass a second time over the same day with the same
      failures writes nothing new: the existence check makes it idempotent. */
  lemma CronRunIdempotent(es: seq<JournalEntry>, day: int, existing: map<ReflectionKey, string>,
      failing: set<Pair>, llm: (string, string) -> LlmOutcome)
    ensures var m := CronRun(es, day, existing, failing, llm);
      CronCouples(es, day, m, failing) == {} && CronRun(es, day, m, failing, llm) == m
  {
    var g := GroupByCouple(OnDate(es, day));
    GroupByCoupleHoldsBothMembers(OnDate(es, day));
    RunOnIdempotent(g, day, existing, failing, llm);
  }

  /** The pass over a group map, written in terms of `Chosen`. */
  lemma RunOnIdempotent(g: CoupleMap, day: int, existing: map<ReflectionKey, string>,
      failing: set<Pair>, llm: (string, string) -> LlmOutcome)
    requires GroupsHoldBothMembers(g)
    ensures var m := existing + Writes(Chosen(g, day, existing, failing), day, g, llm);
      Chosen(g, day, m, failing) == {} && m + Writes(Chosen(g, day, m, failing), day, g, llm) == m
  {
    var ks := Chosen(g, day, existing, failing);
    var m := existing + Writes(ks, day, g, llm);
    WritesCover(existing, ks, day, g, llm);
    NothingChosenAfter(g, day, existing, failing, m);
    WritesNone(day, g, llm);
    assert m + map[] == m;
  }

  /** Once every chosen couple and every old key has a row, nothing is
      chosen any more. */
  lemma NothingChosenAfter(g: CoupleMap, day: int, existing: map<ReflectionKey, string>,
      failing: set<Pair>, m: map<ReflectionKey, string>)
    requires forall k :: k in Chosen(g, day, existing, failing) ==> (day, k) in m
    requires existing.Keys <= m.Keys
    ensures Chosen(g, day, m, failing) == {}
  {
    forall k ensures k !in Chosen(g, day, m, failing) {
      if Eligible(g, k) && k !in failing && (day, k) !in existing {
        assert k in Chosen(g, day, existing, failing);
      }
    }
  }

  lemma WritesNone(day: int, g: CoupleMap, llm: (string, string) -> LlmOutcome)
    ensures Writes({}, day, g, llm) == map[]
  {
  }

  /** After adding the reflections of `ks`, each couple of `ks` has a row. */
  lemma WritesCover(existing: map<ReflectionKey, string>, ks: set<Pair>, day: int, g: CoupleMap,
      llm: (string, string) -> LlmOutcome)
    requires forall k :: k in ks ==> HoldsBoth(g, k)
    ensures forall k :: k in ks ==> (day, k) in existing + Writes(ks, day, g, llm)
    ensures existing.Keys <= (existing + Writes(ks, day, g, llm)).Keys
  {
  }

  /** Moving one element from the unvisited to the visited part keeps the
      two disjoint and their union the same. */
  lemma MoveOne<T>(remaining: set<T>, done: set<T>, x: T)
    requires x in remaining && remaining !! done
    ensures (remaining - {x}) !! (done + {x}) && (remaining - {x}) + (done + {x}) == remaining + done
  {
  }

  /** A table that agrees key by key with `existing` plus the reflections
      of `ks` is that table. */
  lemma TableFromPointwise(m: map<ReflectionKey, string>, existing: map<ReflectionKey, string>,
      ks: set<Pair>, day: int, g: CoupleMap, llm: (string, string) -> LlmOutcome)
    requires forall k :: k in ks ==> HoldsBoth(g, k)
    requires forall key :: key in m <==> key in existing || (key.0 == day && key.1 in ks)
    requires forall key :: key in existing ==> m[key] == existing[key]
    requires forall k :: k in ks && (day, k) !in existing ==> m[(day, k)] == CronText(g, k, llm)
    requires forall k :: k in ks ==> (day, k) !in existing
    ensures m == existing + Writes(ks, day, g, llm)
  {
    var w := Writes(ks, day, g, llm);
    assert m.Keys == (existing + w).Keys;
    forall key | key in m
      ensures m[key] == (existing + w)[key]
    {
      if key !in existing {
        assert key == (day, key.1);
      }
    }
  }

  /** What holds after the second loop of the nightly pass has visited the
      couples `done`: the couples of `ks` among them have been inserted,
      counted, and nothing else has changed. */
  ghost predicate WriteProgress(couples: CoupleMap, day: int, existing: map<ReflectionKey, string>,
      llm: (string, string) -> LlmOutcome, ks: set<Pair>, done: set<Pair>, inserted: set<Pair>,
      m: map<ReflectionKey, string>, created: nat)
  {
    && inserted == ks * done
    && created == |inserted|
    && KeysSoFar(existing, day, inserted, m)
    && KeepsExisting(existing, m)
    && TextsSoFar(couples, day, llm, inserted, m)
  }

  /** The table holds the old keys and the keys of the couples written so far. */
  ghost predicate KeysSoFar(existing: map<ReflectionKey, string>, day: int, inserted: set<Pair>,
      m: map<ReflectionKey, string>)
  {
    forall key :: key in m <==> key in existing || (key.0 == day && key.1 in inserted)
  }

  /** The old rows keep their text. */
  ghost predicate KeepsExisting(existing: map<ReflectionKey, string>, m: map<ReflectionKey, string>)
  {
    forall key :: key in existing ==> key in m && m[key] == existing[key]
  }

  /** Each couple written so far has its generated text. */
  ghost predicate TextsSoFar(couples: CoupleMap, day: int, llm: (string, string) -> LlmOutcome,
      inserted: set<Pair>, m: map<ReflectionKey, string>)
  {
    forall k :: k in inserted ==> HoldsBoth(couples, k) && (day, k) in m && m[(day, k)] == CronText(couples, k, llm)
  }

  /** One turn of the second loop, for a couple `k` not yet visited: the
      source's test picks exactly the couples of `Chosen`, and the insert
      and the count keep `WriteProgress`. */
  lemma WriteStep(couples: CoupleMap, day: int, existing: map<ReflectionKey, string>, failing: set<Pair>,
      llm: (string, string) -> LlmOutcome, done: set<Pair>, inserted: set<Pair>,
      m: map<ReflectionKey, string>, created: nat, k: Pair)
    requires GroupsHoldBothMembers(couples)
    requires k in couples && k !in done
    requires WriteProgress(couples, day, existing, llm, Chosen(couples, day, existing, failing), done, inserted, m, created)
    ensures var ks := Chosen(couples, day, existing, failing);
      var chosen := |couples[k]| == 2 && k !in failing && (day, k) !in m;
      && (chosen <==> k in ks)
      && (chosen ==> HoldsBoth(couples, k))
      && (chosen ==> WriteProgress(couples, day, existing, llm, ks, done + {k}, inserted + {k},
            m[(day, k) := CronText(couples, k, llm)], created + 1))
      && (!chosen ==> WriteProgress(couples, day, existing, llm, ks, done + {k}, inserted, m, created))
  {
    var ks := Chosen(couples, day, existing, failing);
    assert k !in inserted;
    assert (day, k) in m <==> (day, k) in existing;
    if k in ks {
      WriteInserted(couples, day, existing, llm, ks, done, inserted, m, created, k);
    } else {
      assert ks * (done + {k}) == inserted;
    }
  }

  /** The insert of one chosen couple keeps `WriteProgress`. */
  lemma WriteInserted(couples: CoupleMap, day: int, existing: map<ReflectionKey, string>,
      llm: (string, string) -> LlmOutcome, ks: set<Pair>, done: set<Pair>, inserted: set<Pair>,
      m: map<ReflectionKey, string>, created: nat, k: Pair)
    requires k in ks && k !in done && HoldsBoth(couples, k) && (day, k) !in existing
    requires WriteProgress(couples, day, existing, llm, ks, done, inserted, m, created)
    ensures WriteProgress(couples, day, existing, llm, ks, done + {k}, inserted + {k},
      m[(day, k) := CronText(couples, k, llm)], created + 1)
  {
    assert ks * (done + {k}) == inserted + {k};
    assert k !in inserted;
    InsertedKeys(existing, day, inserted, m, k, CronText(couples, k, llm));
    InsertedValues(couples, day, llm, inserted, m, k);
  }

  lemma InsertedKeys(existing: map<ReflectionKey, string>, day: int, inserted: set<Pair>,
      m: map<ReflectionKey, string>, k: Pair, t: string)
    requires (day, k) !in existing
    requires KeysSoFar(existing, day, inserted, m) && KeepsExisting(existing, m)
    ensures KeysSoFar(existing, day, inserted + {k}, m[(day, k) := t])
    ensures KeepsExisting(existing, m[(day, k) := t])
  {
  }

  lemma InsertedValues(couples: CoupleMap, day: int, llm: (string, string) -> LlmOutcome,
      inserted: set<Pair>, m: map<ReflectionKey, string>, k: Pair)
    requires HoldsBoth(couples, k)
    requires TextsSoFar(couples, day, llm, inserted, m)
    ensures TextsSoFar(couples, day, llm, inserted + {k}, m[(day, k) := CronText(couples, k, llm)])
  {
  }

  /** The second loop of the nightly pass over a value of the table, one
      couple at a time in any order: the existence check, the generated
      text, the insert and the count. */
  method WriteReflections(couples: CoupleMap, day: int, existing: map<ReflectionKey, string>,
      failing: set<Pair>, llm: (string, string) -> LlmOutcome) returns (m: map<ReflectionKey, string>, created: nat)
    requires GroupsHoldBothMembers(couples)
    ensures created == |Chosen(couples, day, existing, failing)|
    ensures m == existing + Writes(Chosen(couples, day, existing, failing), day, couples, llm)
  {
    ghost var ks := Chosen(couples, day, existing, failing);
    m := existing;
    created := 0;
    var remaining := couples.Keys;
    ghost var done: set<Pair> := {};
    ghost var inserted: set<Pair> := {};
    while remaining != {}
      invariant remaining !! done && remaining + done == couples.Keys
      invariant WriteProgress(couples, day, existing, llm, ks, done, inserted, m, created)
      decreases remaining
    {
      var k :| k in remaining;
      var entries := couples[k];
      WriteStep(couples, day, existing, failing, llm, done, inserted, m, created, k);
      if |entries| == 2 && k !in failing && (day, k) !in m {
        var text := GenerateAiReflection(llm(entries[k.lo].content, entries[k.hi].content));
        m := m[(day, k) := text];
        created := created + 1;
        inserted := inserted + {k};
      }
      MoveOne(remaining, done, k);
      remaining := remaining - {k};
      done := done + {k};
    }
    WriteDone(couples, day, existing, failing, llm, done, inserted, m, created);
  }

  /** Once every couple has been visited, the loop has produced `Writes` of
      all of `Chosen`. */
  lemma WriteDone(couples: CoupleMap, day: int, existing: map<ReflectionKey, string>, failing: set<Pair>,
      llm: (string, string) -> LlmOutcome, done: set<Pair>, inserted: set<Pair>,
      m: map<ReflectionKey, string>, created: nat)
    requires GroupsHoldBothMembers(couples) && done == couples.Keys
    requires WriteProgress(couples, day, existing, llm, Chosen(couples, day, existing, failing), done, inserted, m, created)
    ensures created == |Chosen(couples, day, existing, failing)|
    ensures m == existing + Writes(Chosen(couples, day, existing, failing), day, couples, llm)
  {
    var ks := Chosen(couples, day, existing, failing);
    assert inserted == ks;
    TableFromPointwise(m, existing, ks, day, couples, llm);
  }

  // ---------------------------------------------------------------------
  // Profiles and partner linking.
  // ---------------------------------------------------------------------

  /** `profiles.select("*").eq("id", u)`, first row. */
  function ProfileById(ps: seq<Profile>, u: UserId): Option<Profile>
  {
    First(ps, (p: Profile) => p.id == u)
  }

  /** `profiles.select("*").eq("invite_code", code)`, first row. */
  function ProfileByCode(ps: seq<Profile>, code: string): Option<Profile>
  {
    First(ps, (p: Profile) => p.inviteCode == Some(code))
  }

  /** `update({"partner_id": partner}).eq("id", u)`. */
  function SetPartner(ps: seq<Profile>, u: UserId, partner: UserId): (r: seq<Profile>)
    ensures |r| == |ps|
    ensures forall i :: 0 <= i < |ps| ==> (r[i].id == ps[i].id && r[i].email == ps[i].email
      && r[i].inviteCode == ps[i].inviteCode)
  {
    seq(|ps|, i requires 0 <= i < |ps| =>
      if ps[i].id == u then ps[i].(partnerId := Some(partner)) else ps[i])
  }

  /** The two profile updates of `invite_partner`. */
  function LinkPartners(ps: seq<Profile>, u: UserId, v: UserId): (r: seq<Profile>)
    ensures |r| == |ps|
  {
    SetPartner(SetPartner(ps, u, v), v, u)
  }

  /** Linking two distinct users makes each point at the other and leaves
      every other profile as it was. */
  lemma LinkPartnersSymmetric(ps: seq<Profile>, u: UserId, v: UserId, i: nat)
    requires u != v && i < |ps|
    ensures var r := LinkPartners(ps, u, v);
      && (ps[i].id == u ==> r[i] == ps[i].(partnerId := Some(v)))
      && (ps[i].id == v ==> r[i] == ps[i].(partnerId := Some(u)))
      && (ps[i].id != u && ps[i].id != v ==> r[i] == ps[i])
  {
    assert SetPartner(ps, u, v)[i].id == ps[i].id;
  }

  /** Linking does not unlink: a third profile that named `v` as partner
      still names `v` after `u` links with `v`, while `v` now names `u`, so
      that partnership is no longer mutual. */
  lemma LinkingKeepsFormerLinks(ps: seq<Profile>, u: UserId, v: UserId, i: nat, j: nat)
    requires u != v && i < |ps| && j < |ps|
    requires ps[i].id != u && ps[i].id != v && ps[i].partnerId == Some(v) && ps[j].id == v
    ensures var r := LinkPartners(ps, u, v);
      r[i].partnerId == Some(v) && r[j].partnerId == Some(u) && r[j].partnerId != Some(r[i].id)
  {
    LinkPartnersSymmetric(ps, u, v, i);
    LinkPartnersSymmetric(ps, u, v, j);
  }

  /** An instance of the above: when `c` links with `a`, who was linked
      with `b`, the profile of `b` still names `a` while `a` now names `c`. */
  lemma LinkingLeavesFormerPartner()
    ensures var ps := [
        Profile("a", "a@x", None, Some("A"), Some("b"), true),
        Profile("b", "b@x", None, Some("B"), Some("a"), true),
        Profile("c", "c@x", None, Some("C"), None, true)];
      var r := LinkPartners(ps, "c", "a");
      r[0].partnerId == Some("c") && r[1].partnerId == Some("a") && r[2].partnerId == Some("a")
  {
    var ps := [
        Profile("a", "a@x", None, Some("A"), Some("b"), true),
        Profile("b", "b@x", None, Some("B"), Some("a"), true),
        Profile("c", "c@x", None, Some("C"), None, true)];
    assert "c" != "a" && "b" != "a" && "b" != "c";
    LinkPartnersSymmetric(ps, "c", "a", 0);
    LinkPartnersSymmetric(ps, "c", "a", 1);
    LinkPartnersSymmetric(ps, "c", "a", 2);
  }

  /** `update_shared_entries` on the journal table: every entry of `u` is
      now shared with exactly `partner`. */
  function ShareJournals(es: seq<JournalEntry>, u: UserId, partner: UserId): (r: seq<JournalEntry>)
    ensures |r| == |es|
    ensures forall i :: 0 <= i < |es| ==>
      r[i] == if es[i].userId == u then es[i].(sharedWith := [partner]) else es[i]
  {
    seq(|es|, i requires 0 <= i < |es| =>
      if es[i].userId == u then es[i].(sharedWith := [partner]) else es[i])
  }

  /** `update_shared_entries` on the mood table. */
  function ShareMoods(ms: seq<MoodEntry>, u: UserId, partner: UserId): (r: seq<MoodEntry>)
    ensures |r| == |ms|
    ensures forall i :: 0 <= i < |ms| ==>
      r[i] == if ms[i].userId == u then ms[i].(sharedWith := [partner]) else ms[i]
  {
    seq(|ms|, i requires 0 <= i < |ms| =>
      if ms[i].userId == u then ms[i].(sharedWith := [partner]) else ms[i])
  }

  /** After linking, the cron pass pairs the user's existing entries with
      the new partner: each of them is keyed by the couple of the two. */
  lemma SharedEntriesKeyedByCouple(es: seq<JournalEntry>, u: UserId, partner: UserId, i: nat)
    requires i < |es| && es[i].userId == u
    ensures KeyedBy(ShareJournals(es, u, partner)[i], CoupleKey(u, partner))
  {
  }

  // ---------------------------------------------------------------------
  // update_journal_entry
  // ---------------------------------------------------------------------

  /** `journal_entries.update(fields).eq("id", id)`. */
  function UpdateRows(es: seq<JournalEntry>, id: string, fields: map<Field, string>): (r: seq<JournalEntry>)
    ensures |r| == |es|
    ensures forall i :: 0 <= i < |es| ==> (r[i].id == es[i].id && r[i].userId == es[i].userId
      && r[i].date == es[i].date && r[i].sharedWith == es[i].sharedWith)
    ensures forall i :: 0 <= i < |es| && es[i].id != id ==> r[i] == es[i]
  {
    seq(|es|, i requires 0 <= i < |es| =>
      if es[i].id == id then ApplyUpdate(es[i], fields) else es[i])
  }

  function IdIs(id: string): JournalEntry -> bool
  {
    (e: JournalEntry) => e.id == id
  }

  /** The whole store. Reflections are keyed by date and sorted pair;
      `audio` holds the names of the stored audio files. */
  class Tables {
    var profiles: seq<Profile>
    var journals: seq<JournalEntry>
    var moods: seq<MoodEntry>
    var reflections: map<ReflectionKey, string>
    var accessLogs: seq<AccessLog>
    var audio: set<string>

    predicate Valid()
      reads this
    {
      SortedKeys(reflections)
    }

    constructor ()
      ensures Valid()
      ensures profiles == [] && journals == [] && moods == [] && reflections == map[]
        && accessLogs == [] && audio == {}
    {
      profiles := [];
      journals := [];
      moods := [];
      reflections := map[];
      accessLogs := [];
      audio := {};
    }

    /** `cron_generate_reflections` for the day before `today`: the table
        becomes `CronRun` of the old one, and the count returned is the
        number of couples written. */
    method CronGenerateReflections(cronSecret: Option<string>, expectedSecret: Option<string>, today: int,
        llm: (string, string) -> LlmOutcome, failing: set<Pair>) returns (r: Result<nat>)
      requires Valid()
      modifies this`reflections
      ensures Valid()
      ensures r.Err? <==> !CronAuthorized(cronSecret, expectedSecret)
      ensures r.Err? ==> r.error == Unauthorized && reflections == old(reflections)
      ensures r.Ok? ==> (r.value == |CronCouples(journals, today - 1, old(reflections), failing)|
        && reflections == CronRun(journals, today - 1, old(reflections), failing, llm))
    {
      if !CronAuthorized(cronSecret, expectedSecret) {
        return Err(Unauthorized);
      }
      var yesterday := today - 1;
      var couples := GroupCouples(OnDate(journals, yesterday));
      GroupByCoupleHoldsBothMembers(OnDate(journals, yesterday));
      CronRunAddsOnly(journals, yesterday, reflections, failing, llm);
      var written, created := WriteReflections(couples, yesterday, reflections, failing, llm);
      reflections := written;
      r := Ok(created);
    }

    /** The shared tail of `generate_reflection` and `backfill_reflection`:
        both users' last entries of the day, the generated text, and an
        upsert under the sorted pair. */
    method ReflectOn(day: int, u: UserId, partner: UserId, llm: (string, string) -> LlmOutcome)
        returns (r: Result<string>)
      requires Valid()
      modifies this`reflections
      ensures Valid()
      ensures var es := OnDate(journals, day);
        r.Ok? <==> u != partner && Couples.LastBy(es, u).Some? && Couples.LastBy(es, partner).Some?
      ensures r.Err? ==> r.error == MissingEntries && reflections == old(reflections)
      ensures r.Ok? ==> var es := OnDate(journals, day);
        && r.value == GenerateAiReflection(llm(LastBy(es, u).value.content, LastBy(es, partner).value.content))
        && reflections == old(reflections)[(day, CoupleKey(u, partner)) := r.value]
    {
      var found := FindPairEntries(OnDate(journals, day), u, partner);
      if found.Err? {
        return Err(found.error);
      }
      var (userEntry, partnerEntry) := found.value;
      var text := GenerateAiReflection(llm(userEntry.content, partnerEntry.content));
      reflections := reflections[(day, CoupleKey(u, partner)) := text];
      r := Ok(text);
    }

    /** `generate_reflection`: the caller's profile and partner, then the
        shared tail. */
    method GenerateReflection(cu: UserId, day: int, llm: (string, string) -> LlmOutcome)
        returns (r: Result<string>)
      requires Valid()
      modifies this`reflections
      ensures Valid()
      ensures ProfileById(profiles, cu).None? ==> r == Err(ProfileNotFound) && reflections == old(reflections)
      ensures ProfileById(profiles, cu).Some? && PartnerOf(ProfileById(profiles, cu).value).None? ==>
        r == Err(NoPartner) && reflections == old(reflections)
      ensures ProfileById(profiles, cu).Some? && PartnerOf(ProfileById(profiles, cu).value).Some? ==>
        var partner := PartnerOf(ProfileById(profiles, cu).value).value;
        var es := OnDate(journals, day);
        && (r.Ok? <==> cu != partner && LastBy(es, cu).Some? && LastBy(es, partner).Some?)
        && (r.Err? ==> r.error == MissingEntries)
      ensures r.Ok? ==> var partner := PartnerOf(ProfileById(profiles, cu).value).value;
        var es := OnDate(journals, day);
        && cu != partner && LastBy(es, cu).Some? && LastBy(es, partner).Some?
        && r.value == GenerateAiReflection(llm(LastBy(es, cu).value.content, LastBy(es, partner).value.content))
        && reflections == old(reflections)[(day, CoupleKey(cu, partner)) := r.value]
      ensures r.Err? ==> reflections == old(reflections)
    {
      var profile := ProfileById(profiles, cu);
      if profile.None? {
        return Err(ProfileNotFound);
      }
      var partner := PartnerOf(profile.value);
      if partner.None? {
        return Err(NoPartner);
      }
      r := ReflectOn(day, cu, partner.value, llm);
    }

    /** `backfill_reflection`: the shared tail for any two users, with no
        check that they are partners. */
    method BackfillReflection(day: int, u: UserId, partner: UserId, llm: (string, string) -> LlmOutcome)
        returns (r: Result<string>)
      requires Valid()
      modifies this`reflections
      ensures Valid()
      ensures var es := OnDate(journals, day);
        r.Ok? <==> u != partner && LastBy(es, u).Some? && LastBy(es, partner).Some?
      ensures r.Err? ==> r.error == MissingEntries && reflections == old(reflections)
      ensures r.Ok? ==> var es := OnDate(journals, day);
        && r.value == GenerateAiReflection(llm(LastBy(es, u).value.content, LastBy(es, partner).value.content))
        && reflections == old(reflections)[(day, CoupleKey(u, partner)) := r.value]
    {
      r := ReflectOn(day, u, partner, llm);
    }

    /** `invite_partner` with `update_shared_entries`: link with the owner
        of the invite code and share the caller's existing entries with
        them. The result is the partner's `full_name`, which may be absent. */
    method InvitePartner(cu: UserId, code: string) returns (r: Result<Option<string>>)
      modifies this`profiles, this`journals, this`moods
      ensures ProfileByCode(old(profiles), code).None? ==> r == Err(InvalidInviteCode)
      ensures ProfileByCode(old(profiles), code).Some? && ProfileByCode(old(profiles), code).value.id == cu ==>
        r == Err(SelfInvite)
      ensures ProfileByCode(old(profiles), code).Some? && ProfileByCode(old(profiles), code).value.id != cu ==>
        r.Ok?
      ensures r.Err? ==> profiles == old(profiles) && journals == old(journals) && moods == old(moods)
      ensures r.Ok? ==> var partner := ProfileByCode(old(profiles), code).value;
        && partner.id != cu && r.value == partner.fullName
        && profiles == LinkPartners(old(profiles), cu, partner.id)
        && journals == ShareJournals(old(journals), cu, partner.id)
        && moods == ShareMoods(old(moods), cu, partner.id)
    {
      var found := ProfileByCode(profiles, code);
      if found.None? {
        return Err(InvalidInviteCode);
      }
      var partner := found.value;
      if partner.id == cu {
        return Err(SelfInvite);
      }
      profiles := SetPartner(profiles, cu, partner.id);
      profiles := SetPartner(profiles, partner.id, cu);
      journals := ShareJournals(journals, cu, partner.id);
      moods := ShareMoods(moods, cu, partner.id);
      r := Ok(partner.fullName);
    }

    /** `log_entry_access`: one receipt per row owned by someone else,
        inserted in one batch; an empty batch is not sent and a failed
        insert is ignored. */
    method LogEntryAccess(rows: seq<OwnedRow>, cu: UserId, entryType: string, insertFails: bool)
      modifies this`accessLogs
      ensures var logs := ReceiptsFor(rows, cu, entryType);
        accessLogs == if logs == [] || insertFails then old(accessLogs) else old(accessLogs) + logs
    {
      var logs := BuildAccessLogs(rows, cu, entryType);
      if logs != [] && !insertFails {
        accessLogs := accessLogs + logs;
      }
    }

    /** `update_journal_entry`: the given fields of the rows with that id;
        the first updated row is returned, and no matching row is an
        error. */
    method UpdateJournalEntry(entryId: string, u: JournalEntryUpdate) returns (r: Result<JournalEntry>)
      modifies this`journals
      ensures UpdateData(u).Err? ==> r == Err(NoDataToUpdate) && journals == old(journals)
      ensures UpdateData(u).Ok? && First(old(journals), IdIs(entryId)).None? ==>
        r == Err(EntryNotFound) && journals == old(journals)
      ensures UpdateData(u).Ok? && First(old(journals), IdIs(entryId)).Some? ==> r.Ok?
      ensures UpdateData(u).Ok? ==> journals == UpdateRows(old(journals), entryId, UpdateData(u).value)
      ensures r.Ok? ==> (UpdateData(u).Ok? && First(old(journals), IdIs(entryId)).Some?
        && r.value == ApplyUpdate(First(old(journals), IdIs(entryId)).value, UpdateData(u).value))
    {
      var fields := UpdateData(u);
      if fields.Err? {
        return Err(fields.error);
      }
      var before := journals;
      journals := UpdateRows(journals, entryId, fields.value);
      var first := First(before, IdIs(entryId));
      FirstMeaning(before, IdIs(entryId));
      if first.None? {
        return Err(EntryNotFound);
      }
      r := Ok(ApplyUpdate(first.value, fields.value));
    }

    /** `upload_audio`: only audio content types are stored, under
        `<user>/<uuid>.<extension>`; a refused upload stores nothing. */
    method UploadAudio(contentType: string, filename: string, cu: UserId, fileUuid: string, uploadOk: bool)
        returns (r: Result<string>)
      modifies this`audio
      ensures AudioFilename(contentType, filename, cu, fileUuid).Err? ==> r == Err(NotAudio)
      ensures AudioFilename(contentType, filename, cu, fileUuid).Ok? && !uploadOk ==> r == Err(UploadFailed)
      ensures AudioFilename(contentType, filename, cu, fileUuid).Ok? && uploadOk ==> r.Ok?
      ensures r.Err? ==> audio == old(audio)
      ensures r.Ok? ==> r == AudioFilename(contentType, filename, cu, fileUuid) && audio == old(audio) + {r.value}
    {
      var name := AudioFilename(contentType, filename, cu, fileUuid);
      if name.Err? {
        return Err(name.error);
      }
      if !uploadOk {
        return Err(UploadFailed);
      }
      audio := audio + {name.value};
      r := name;
    }

    /** `calculate_streaks` over the caller's journal dates; a failed query
        gives (0, 0). */
    method UserStreaks(cu: UserId, today: int, queryFails: bool) returns (current: nat, longest: nat)
      ensures queryFails ==> current == 0 && longest == 0
      ensures !queryFails ==> (current, longest) == Streaks.Streaks(DatesOf(journals, cu), today)
    {
      var fetched := if queryFails then None else Some(DatesOf(journals, cu));
      current, longest := Streaks.CalculateStreaks(fetched, today);
    }
  }

  /** `journal_entries.select("date").eq("user_id", u)`. */
  function DatesOf(es: seq<JournalEntry>, u: UserId): (ds: seq<int>)
    ensures forall e :: e in es && e.userId == u ==> e.date in ds
    ensures forall d :: d in ds ==> exists e :: e in es && e.userId == u && e.date == d
  {
    if es == [] then []
    else
      var ds := DatesOf(es[..|es| - 1], u);
      var e := es[|es| - 1];
      assert forall x :: x in es ==> x in es[..|es| - 1] || x == e;
      if e.userId == u then ds + [e.date] else ds
  }
}
