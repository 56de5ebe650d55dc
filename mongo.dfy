/** The MongoDB variant of the backend (backend/server_mongodb_backup.py).
    Each collection is a sequence of documents in insertion order, so that
    `find_one` and `update_one` pick the first matching document as the
    server sees it. Dates are the `YYYY-MM-DD` strings the variant stores;
    ids, invite codes and password hashes arrive as parameters. */
module Mongo {
  import opened Common
  import opened Helpers
  import Couples

  datatype UserDoc = UserDoc(
    id: string,
    email: string,
    name: string,
    partnerId: Option<string>,
    inviteCode: Option<string>,
    passwordHash: string)

  datatype JournalDoc = JournalDoc(
    id: string,
    userId: string,
    content: string,
    date: string,
    mood: Option<string>,
    audioUrl: Option<string>)

  datatype MoodDoc = MoodDoc(
    id: string,
    userId: string,
    mood: string,
    date: string)

  datatype ReflectionDoc = ReflectionDoc(
    id: string,
    date: string,
    userIds: seq<string>,
    reflection: string)

  /** `user.get('partner_id')` used as a condition. */
  function PartnerIdOf(u: UserDoc): Option<string>
  {
    if u.partnerId.Some? && u.partnerId.value != "" then u.partnerId else None
  }

  function UserIdIs(id: string): UserDoc -> bool
  {
    (u: UserDoc) => u.id == id
  }

  function EmailIs(email: string): UserDoc -> bool
  {
    (u: UserDoc) => u.email == email
  }

  function CodeIs(code: string): UserDoc -> bool
  {
    (u: UserDoc) => u.inviteCode == Some(code)
  }

  // ---------------------------------------------------------------------
  // register: one account per email.
  // ---------------------------------------------------------------------

  predicate EmailsUnique(us: seq<UserDoc>)
  {
    forall i, j :: 0 <= i < j < |us| ==> us[i].email != us[j].email
  }

  /** `str(uuid.uuid4())[:8]`: the first eight characters. */
  function InviteCodeOf(uuidText: string): (code: string)
    ensures |uuidText| >= 8 ==> |code| == 8
    ensures |uuidText| < 8 ==> code == uuidText
    ensures code <= uuidText
  {
    if |uuidText| < 8 then uuidText else uuidText[..8]
  }

  /** Adding an account whose email nobody has keeps emails unique. */
  lemma RegisterKeepsEmailsUnique(us: seq<UserDoc>, u: UserDoc)
    requires EmailsUnique(us)
    requires First(us, EmailIs(u.email)).None?
    ensures EmailsUnique(us + [u])
  {
    FirstMeaning(us, EmailIs(u.email));
    assert forall i :: 0 <= i < |us| ==> us[i].email != u.email by {
      forall i | 0 <= i < |us| ensures us[i].email != u.email {
        assert !EmailIs(u.email)(us[i]);
      }
    }
  }

  // ---------------------------------------------------------------------
  // invite_partner: two `update_one` calls.
  // ---------------------------------------------------------------------

  /** `update_one({"id": u}, {"$set": {"partner_id": partner}})`: only the
      first user document with that id changes. */
  function LinkFirst(us: seq<UserDoc>, u: string, partner: string): (r: seq<UserDoc>)
    ensures |r| == |us|
    ensures forall i :: 0 <= i < |us| ==> (r[i].id == us[i].id && r[i].email == us[i].email
      && r[i].inviteCode == us[i].inviteCode && r[i].name == us[i].name)
  {
    var k := FirstIndex(us, UserIdIs(u));
    if k == -1 then us else us[k := us[k].(partnerId := Some(partner))]
  }

  /** After linking `u` and `v`: the first document of `u` points at `v`,
      the first document of `v` points at `u`, and every other document is
      unchanged. */
  lemma LinkBothMeaning(us: seq<UserDoc>, u: string, v: string)
    requires u != v
    ensures var r := LinkFirst(LinkFirst(us, u, v), v, u);
      var ku, kv := FirstIndex(us, UserIdIs(u)), FirstIndex(us, UserIdIs(v));
      && (ku >= 0 ==> r[ku] == us[ku].(partnerId := Some(v)))
      && (kv >= 0 ==> r[kv] == us[kv].(partnerId := Some(u)))
      && (forall i :: 0 <= i < |us| && i != ku && i != kv ==> r[i] == us[i])
      && (ku == -1 ==> forall i :: 0 <= i < |r| ==> r[i].id != u)
      && (kv == -1 ==> forall i :: 0 <= i < |r| ==> r[i].id != v)
  {
    var mid := LinkFirst(us, u, v);
    var ku, kv := FirstIndex(us, UserIdIs(u)), FirstIndex(us, UserIdIs(v));
    LinkFirstEffect(us, u, v);
    FirstIndexSameMatches(mid, UserIdIs(v), us, UserIdIs(v));
    LinkFirstEffect(mid, v, u);
    assert ku >= 0 && kv >= 0 ==> ku != kv;
  }

  /** One `update_one`: the first document with that id, and only it. */
  lemma LinkFirstEffect(us: seq<UserDoc>, u: string, partner: string)
    ensures var k, r := FirstIndex(us, UserIdIs(u)), LinkFirst(us, u, partner);
      && (k >= 0 ==> r[k] == us[k].(partnerId := Some(partner)))
      && (forall i :: 0 <= i < |us| && i != k ==> r[i] == us[i])
      && (k == -1 ==> forall i :: 0 <= i < |us| ==> us[i].id != u)
  {
    var k := FirstIndex(us, UserIdIs(u));
    if k == -1 {
      forall i | 0 <= i < |us| ensures us[i].id != u {
        assert !UserIdIs(u)(us[i]);
      }
    }
  }

  // ---------------------------------------------------------------------
  // create_journal_entry and create_mood_entry: upserts by (user, date).
  // ---------------------------------------------------------------------

  function JournalKeyIs(u: string, d: string): JournalDoc -> bool
  {
    (e: JournalDoc) => e.userId == u && e.date == d
  }

  function MoodKeyIs(u: string, d: string): MoodDoc -> bool
  {
    (m: MoodDoc) => m.userId == u && m.date == d
  }

  /** At most one journal document per user and date. */
  predicate OneJournalPerDay(js: seq<JournalDoc>)
  {
    forall i, j :: 0 <= i < j < |js| ==> !(js[i].userId == js[j].userId && js[i].date == js[j].date)
  }

  /** At most one mood document per user and date. */
  predicate OneMoodPerDay(ms: seq<MoodDoc>)
  {
    forall i, j :: 0 <= i < j < |ms| ==> !(ms[i].userId == ms[j].userId && ms[i].date == ms[j].date)
  }

  /** The journal collection after a submission: the first document of that
      user and date gets the new content and mood, or a new document is
      appended when there is none. */
  function UpsertJournal(js: seq<JournalDoc>, u: string, d: string, content: string, mood: Option<string>,
      newId: string): seq<JournalDoc>
  {
    var k := FirstIndex(js, JournalKeyIs(u, d));
    if k == -1 then js + [JournalDoc(newId, u, content, d, mood, None)]
    else js[k := js[k].(content := content, mood := mood)]
  }

  /** A submission only touches the document of that user and date: it keeps
      every other document, keeps the id, author, date and audio of every
      document, and leaves exactly one document for that user and date,
      holding the submitted content and mood. */
  lemma UpsertJournalMeaning(js: seq<JournalDoc>, u: string, d: string, content: string, mood: Option<string>,
      newId: string)
    requires OneJournalPerDay(js)
    ensures var r := UpsertJournal(js, u, d, content, mood, newId);
      && OneJournalPerDay(r)
      && |js| <= |r| <= |js| + 1
      && (forall i :: 0 <= i < |js| ==> (r[i].id == js[i].id && r[i].userId == js[i].userId
            && r[i].date == js[i].date && r[i].audioUrl == js[i].audioUrl))
      && (forall i :: 0 <= i < |js| && !(js[i].userId == u && js[i].date == d) ==> r[i] == js[i])
      && (|r| == |js| + 1 <==> forall i :: 0 <= i < |js| ==> !(js[i].userId == u && js[i].date == d))
      && (|r| == |js| + 1 ==> r[|js|] == JournalDoc(newId, u, content, d, mood, None))
      && (forall i :: 0 <= i < |r| && r[i].userId == u && r[i].date == d ==>
            r[i].content == content && r[i].mood == mood)
      && (exists i :: 0 <= i < |r| && r[i].userId == u && r[i].date == d)
  {
    var k := FirstIndex(js, JournalKeyIs(u, d));
    var r := UpsertJournal(js, u, d, content, mood, newId);
    if k == -1 {
      assert forall i :: 0 <= i < |js| ==> !(js[i].userId == u && js[i].date == d) by {
        forall i | 0 <= i < |js| ensures !(js[i].userId == u && js[i].date == d) {
          assert !JournalKeyIs(u, d)(js[i]);
        }
      }
      assert r[|js|].userId == u && r[|js|].date == d;
    } else {
      assert JournalKeyIs(u, d)(js[k]);
      assert r[k].userId == u && r[k].date == d;
    }
  }

  /** Submitting the same entry twice is the same as submitting it once. */
  lemma UpsertJournalIdempotent(js: seq<JournalDoc>, u: string, d: string, content: string,
      mood: Option<string>, id1: string, id2: string)
    ensures var once := UpsertJournal(js, u, d, content, mood, id1);
      UpsertJournal(once, u, d, content, mood, id2) == once
  {
    var k := FirstIndex(js, JournalKeyIs(u, d));
    var once := UpsertJournal(js, u, d, content, mood, id1);
    if k == -1 {
      FirstAppend(js, JournalDoc(id1, u, content, d, mood, None), JournalKeyIs(u, d));
      assert FirstIndex(once, JournalKeyIs(u, d)) == |js|;
    } else {
      FirstIndexSameMatches(once, JournalKeyIs(u, d), js, JournalKeyIs(u, d));
    }
  }

  /** The mood collection after a submission: only the mood of the first
      document of that user and date changes, or a new document is appended
      when there is none. */
  function UpsertMood(ms: seq<MoodDoc>, u: string, d: string, mood: string, newId: string): seq<MoodDoc>
  {
    var k := FirstIndex(ms, MoodKeyIs(u, d));
    if k == -1 then ms + [MoodDoc(newId, u, mood, d)]
    else ms[k := ms[k].(mood := mood)]
  }

  /** A mood submission only touches the mood of that user and date, and
      leaves exactly one document for them holding the submitted mood. */
  lemma UpsertMoodMeaning(ms: seq<MoodDoc>, u: string, d: string, mood: string, newId: string)
    requires OneMoodPerDay(ms)
    ensures var r := UpsertMood(ms, u, d, mood, newId);
      && OneMoodPerDay(r)
      && |ms| <= |r| <= |ms| + 1
      && (forall i :: 0 <= i < |ms| ==> (r[i].id == ms[i].id && r[i].userId == ms[i].userId
            && r[i].date == ms[i].date))
      && (forall i :: 0 <= i < |ms| && !(ms[i].userId == u && ms[i].date == d) ==> r[i] == ms[i])
      && (|r| == |ms| + 1 <==> forall i :: 0 <= i < |ms| ==> !(ms[i].userId == u && ms[i].date == d))
      && (|r| == |ms| + 1 ==> r[|ms|] == MoodDoc(newId, u, mood, d))
      && (forall i :: 0 <= i < |r| && r[i].userId == u && r[i].date == d ==> r[i].mood == mood)
      && (exists i :: 0 <= i < |r| && r[i].userId == u && r[i].date == d)
  {
    var k := FirstIndex(ms, MoodKeyIs(u, d));
    var r := UpsertMood(ms, u, d, mood, newId);
    if k == -1 {
      assert forall i :: 0 <= i < |ms| ==> !(ms[i].userId == u && ms[i].date == d) by {
        forall i | 0 <= i < |ms| ensures !(ms[i].userId == u && ms[i].date == d) {
          assert !MoodKeyIs(u, d)(ms[i]);
        }
      }
      assert r[|ms|].userId == u && r[|ms|].date == d;
    } else {
      assert MoodKeyIs(u, d)(ms[k]);
      assert r[k].userId == u && r[k].date == d;
    }
  }

  // ---------------------------------------------------------------------
  // get_calendar_data: the month's documents grouped by date.
  // ---------------------------------------------------------------------

  /** `{"user_id": {"$in": [u, p]}, "date": {"$regex": "^" + month}}`, with
      the month read as a literal prefix. */
  function JournalInMonth(u: string, p: string, month: string): JournalDoc -> bool
  {
    (e: JournalDoc) => (e.userId == u || e.userId == p) && StartsWith(e.date, month)
  }

  function MoodInMonth(u: string, p: string, month: string): MoodDoc -> bool
  {
    (m: MoodDoc) => (m.userId == u || m.userId == p) && StartsWith(m.date, month)
  }

  /** `{"user_ids": {"$in": [u]}, "date": {"$regex": "^" + month}}`. */
  function ReflectionInMonth(u: string, month: string): ReflectionDoc -> bool
  {
    (r: ReflectionDoc) => u in r.userIds && StartsWith(r.date, month)
  }

  datatype DayEntry = DayEntry(
    date: string,
    myEntry: Option<JournalDoc>,
    partnerEntry: Option<JournalDoc>,
    myMood: Option<MoodDoc>,
    partnerMood: Option<MoodDoc>,
    reflection: Option<ReflectionDoc>)

  /** One document of the three queries, in the order the loops visit them. */
  datatype Item = JournalItem(entry: JournalDoc) | MoodItem(mood: MoodDoc) | ReflectionItem(refl: ReflectionDoc)

  function ItemDate(it: Item): string
  {
    match it
    case JournalItem(e) => e.date
    case MoodItem(m) => m.date
    case ReflectionItem(r) => r.date
  }

  function JournalItems(es: seq<JournalDoc>): seq<Item>
  {
    seq(|es|, i requires 0 <= i < |es| => JournalItem(es[i]))
  }

  function MoodItems(ms: seq<MoodDoc>): seq<Item>
  {
    seq(|ms|, i requires 0 <= i < |ms| => MoodItem(ms[i]))
  }

  function ReflectionItems(rs: seq<ReflectionDoc>): seq<Item>
  {
    seq(|rs|, i requires 0 <= i < |rs| => ReflectionItem(rs[i]))
  }

  /** The user's own documents fill the `my_*` slots, every other document
      the `partner_*` slots; a reflection fills the day's reflection. A later
      document replaces an earlier one in the same slot. */
  function Fill(day: DayEntry, it: Item, u: string): DayEntry
  {
    match it
    case JournalItem(e) => if e.userId == u then day.(myEntry := Some(e)) else day.(partnerEntry := Some(e))
    case MoodItem(m) => if m.userId == u then day.(myMood := Some(m)) else day.(partnerMood := Some(m))
    case ReflectionItem(r) => day.(reflection := Some(r))
  }

  function DateIs(d: string): DayEntry -> bool
  {
    (day: DayEntry) => day.date == d
  }

  /** `calendar_data[date]`, created as an empty `DayEntry` when missing,
      then filled. The dict keeps its keys in insertion order. */
  function Place(days: seq<DayEntry>, it: Item, u: string): seq<DayEntry>
  {
    var k := FirstIndex(days, DateIs(ItemDate(it)));
    if k == -1 then days + [Fill(DayEntry(ItemDate(it), None, None, None, None, None), it, u)]
    else days[k := Fill(days[k], it, u)]
  }

  function PlaceAll(days: seq<DayEntry>, items: seq<Item>, u: string): seq<DayEntry>
  {
    if items == [] then days
    else Place(PlaceAll(days, items[..|items| - 1], u), items[|items| - 1], u)
  }

  /** What the month view returns for user `u`: nothing without a partner,
      otherwise the days of the month's journal entries, moods and
      reflections, in that processing order. */
  function CalendarView(users: seq<UserDoc>, js: seq<JournalDoc>, ms: seq<MoodDoc>, rs: seq<ReflectionDoc>,
      u: string, month: string): seq<DayEntry>
  {
    var user := First(users, UserIdIs(u));
    if user.None? || PartnerIdOf(user.value).None? then []
    else
      var p := PartnerIdOf(user.value).value;
      PlaceAll([], JournalItems(Filter(js, JournalInMonth(u, p, month)))
        + MoodItems(Filter(ms, MoodInMonth(u, p, month)))
        + ReflectionItems(Filter(rs, ReflectionInMonth(u, month))), u)
  }

  /** The documents the three queries may return. */
  predicate ItemFits(it: Item, u: string, p: string, month: string)
  {
    match it
    case JournalItem(e) => JournalInMonth(u, p, month)(e)
    case MoodItem(m) => MoodInMonth(u, p, month)(m)
    case ReflectionItem(r) => ReflectionInMonth(u, month)(r)
  }

  /** Each slot holds a document of that day: `my_*` only the user's own,
      `partner_*` only the partner's, and the reflection one that names the
      user. */
  predicate SlotsHold(day: DayEntry, u: string, p: string, month: string)
  {
    StartsWith(day.date, month) && EntrySlots(day, u, p) && MoodSlots(day, u, p) && ReflectionSlot(day, u)
  }

  predicate EntrySlots(day: DayEntry, u: string, p: string)
  {
    && (day.myEntry.Some? ==> day.myEntry.value.userId == u && day.myEntry.value.date == day.date)
    && (day.partnerEntry.Some? ==> (day.partnerEntry.value.userId == p && p != u
          && day.partnerEntry.value.date == day.date))
  }

  predicate MoodSlots(day: DayEntry, u: string, p: string)
  {
    && (day.myMood.Some? ==> day.myMood.value.userId == u && day.myMood.value.date == day.date)
    && (day.partnerMood.Some? ==> (day.partnerMood.value.userId == p && p != u
          && day.partnerMood.value.date == day.date))
  }

  predicate ReflectionSlot(day: DayEntry, u: string)
  {
    day.reflection.Some? ==> u in day.reflection.value.userIds && day.reflection.value.date == day.date
  }

  predicate CalendarShape(days: seq<DayEntry>, u: string, p: string, month: string)
  {
    && (forall i, j :: 0 <= i < j < |days| ==> days[i].date != days[j].date)
    && (forall i :: 0 <= i < |days| ==> SlotsHold(days[i], u, p, month))
  }

  function DatesOfDays(days: seq<DayEntry>): set<string>
  {
    set i | 0 <= i < |days| :: days[i].date
  }

  function DatesOfItems(items: seq<Item>): set<string>
  {
    set i | 0 <= i < |items| :: ItemDate(items[i])
  }

  lemma FillKeepsSlots(day: DayEntry, it: Item, u: string, p: string, month: string)
    requires SlotsHold(day, u, p, month) && ItemFits(it, u, p, month) && ItemDate(it) == day.date
    ensures SlotsHold(Fill(day, it, u), u, p, month) && Fill(day, it, u).date == day.date
  {
    match it
    case JournalItem(e) => FillEntryKeepsSlots(day, e, u, p, month);
    case MoodItem(m) => FillMoodKeepsSlots(day, m, u, p, month);
    case ReflectionItem(x) =>
  }

  lemma FillEntryKeepsSlots(day: DayEntry, e: JournalDoc, u: string, p: string, month: string)
    requires SlotsHold(day, u, p, month) && JournalInMonth(u, p, month)(e) && e.date == day.date
    ensures SlotsHold(Fill(day, JournalItem(e), u), u, p, month)
  {
    var r := Fill(day, JournalItem(e), u);
    if e.userId == u {
      assert r == day.(myEntry := Some(e));
    } else {
      assert r == day.(partnerEntry := Some(e));
    }
    assert StartsWith(r.date, month) && MoodSlots(r, u, p) && ReflectionSlot(r, u);
  }

  lemma FillMoodKeepsSlots(day: DayEntry, m: MoodDoc, u: string, p: string, month: string)
    requires SlotsHold(day, u, p, month) && MoodInMonth(u, p, month)(m) && m.date == day.date
    ensures SlotsHold(Fill(day, MoodItem(m), u), u, p, month)
  {
    var r := Fill(day, MoodItem(m), u);
    if m.userId == u {
      assert r == day.(myMood := Some(m));
    } else {
      assert r == day.(partnerMood := Some(m));
    }
    assert StartsWith(r.date, month) && EntrySlots(r, u, p) && ReflectionSlot(r, u);
  }

  /** Placing one fitting document keeps the shape and adds its date. */
  lemma PlaceKeepsShape(days: seq<DayEntry>, it: Item, u: string, p: string, month: string)
    requires CalendarShape(days, u, p, month) && ItemFits(it, u, p, month)
    ensures CalendarShape(Place(days, it, u), u, p, month)
    ensures DatesOfDays(Place(days, it, u)) == DatesOfDays(days) + {ItemDate(it)}
  {
    var d := ItemDate(it);
    var k := FirstIndex(days, DateIs(d));
    if k == -1 {
      assert forall i :: 0 <= i < |days| ==> days[i].date != d by {
        forall i | 0 <= i < |days| ensures days[i].date != d {
          assert !DateIs(d)(days[i]);
        }
      }
      PlaceNewDay(days, it, u, p, month);
    } else {
      assert DateIs(d)(days[k]);
      PlaceKnownDay(days, k, it, u, p, month);
    }
  }

  lemma PlaceNewDay(days: seq<DayEntry>, it: Item, u: string, p: string, month: string)
    requires CalendarShape(days, u, p, month) && ItemFits(it, u, p, month)
    requires forall i :: 0 <= i < |days| ==> days[i].date != ItemDate(it)
    ensures var r := days + [Fill(DayEntry(ItemDate(it), None, None, None, None, None), it, u)];
      CalendarShape(r, u, p, month) && DatesOfDays(r) == DatesOfDays(days) + {ItemDate(it)}
  {
    var d := ItemDate(it);
    var empty := DayEntry(d, None, None, None, None, None);
    FillKeepsSlots(empty, it, u, p, month);
    var r := days + [Fill(empty, it, u)];
    assert forall i :: 0 <= i < |days| ==> r[i] == days[i];
    assert r[|days|].date == d;
  }

  lemma PlaceKnownDay(days: seq<DayEntry>, k: nat, it: Item, u: string, p: string, month: string)
    requires CalendarShape(days, u, p, month) && ItemFits(it, u, p, month)
    requires k < |days| && days[k].date == ItemDate(it)
    ensures var r := days[k := Fill(days[k], it, u)];
      CalendarShape(r, u, p, month) && DatesOfDays(r) == DatesOfDays(days)
  {
    FillKeepsSlots(days[k], it, u, p, month);
    var r := days[k := Fill(days[k], it, u)];
    assert forall i :: 0 <= i < |days| ==> r[i].date == days[i].date;
  }

  /** Placing fitting documents one by one keeps the shape, and the days are
      exactly the dates of the documents. */
  lemma {:induction false} PlaceAllShape(days: seq<DayEntry>, items: seq<Item>, u: string, p: string, month: string)
    requires CalendarShape(days, u, p, month)
    requires forall i :: 0 <= i < |items| ==> ItemFits(items[i], u, p, month)
    ensures CalendarShape(PlaceAll(days, items, u), u, p, month)
    ensures DatesOfDays(PlaceAll(days, items, u)) == DatesOfDays(days) + DatesOfItems(items)
  {
    if items != [] {
      var front := items[..|items| - 1];
      PlaceAllShape(days, front, u, p, month);
      PlaceKeepsShape(PlaceAll(days, front, u), items[|items| - 1], u, p, month);
      DatesOfItemsSnoc(items);
    }
  }

  lemma DatesOfItemsSnoc(items: seq<Item>)
    requires items != []
    ensures DatesOfItems(items) == DatesOfItems(items[..|items| - 1]) + {ItemDate(items[|items| - 1])}
  {
    var front := items[..|items| - 1];
    assert forall i :: 0 <= i < |front| ==> front[i] == items[i];
  }

  /** The month view is empty without a partner. Otherwise its days have
      distinct dates in the month, every slot holds a document of its own
      day and owner, and the days are exactly the dates of the month's
      documents. */
  lemma CalendarViewMeaning(users: seq<UserDoc>, js: seq<JournalDoc>, ms: seq<MoodDoc>, rs: seq<ReflectionDoc>,
      u: string, month: string)
    ensures var user := First(users, UserIdIs(u));
      user.None? || PartnerIdOf(user.value).None? ==> CalendarView(users, js, ms, rs, u, month) == []
    ensures var user := First(users, UserIdIs(u));
      user.Some? && PartnerIdOf(user.value).Some? ==>
        var p := PartnerIdOf(user.value).value;
        var days := CalendarView(users, js, ms, rs, u, month);
        && CalendarShape(days, u, p, month)
        && DatesOfDays(days) == (set e | e in Filter(js, JournalInMonth(u, p, month)) :: e.date)
             + (set m | m in Filter(ms, MoodInMonth(u, p, month)) :: m.date)
             + (set r | r in Filter(rs, ReflectionInMonth(u, month)) :: r.date)
  {
    var user := First(users, UserIdIs(u));
    if user.Some? && PartnerIdOf(user.value).Some? {
      var p := PartnerIdOf(user.value).value;
      var fj := Filter(js, JournalInMonth(u, p, month));
      var fm := Filter(ms, MoodInMonth(u, p, month));
      var fr := Filter(rs, ReflectionInMonth(u, month));
      var items := JournalItems(fj) + MoodItems(fm) + ReflectionItems(fr);
      QueriedItemsFit(fj, fm, fr, u, p, month);
      PlaceAllShape([], items, u, p, month);
      ItemDatesOfThree(fj, fm, fr);
    }
  }

  /** Everything the three queries return fits the month view. */
  lemma QueriedItemsFit(fj: seq<JournalDoc>, fm: seq<MoodDoc>, fr: seq<ReflectionDoc>,
      u: string, p: string, month: string)
    requires forall i :: 0 <= i < |fj| ==> JournalInMonth(u, p, month)(fj[i])
    requires forall i :: 0 <= i < |fm| ==> MoodInMonth(u, p, month)(fm[i])
    requires forall i :: 0 <= i < |fr| ==> ReflectionInMonth(u, month)(fr[i])
    ensures var items := JournalItems(fj) + MoodItems(fm) + ReflectionItems(fr);
      forall i :: 0 <= i < |items| ==> ItemFits(items[i], u, p, month)
  {
    var items := JournalItems(fj) + MoodItems(fm) + ReflectionItems(fr);
    forall i | 0 <= i < |items| ensures ItemFits(items[i], u, p, month) {
      if i < |fj| {
        assert items[i] == JournalItem(fj[i]);
      } else if i < |fj| + |fm| {
        assert items[i] == MoodItem(fm[i - |fj|]);
      } else {
        assert items[i] == ReflectionItem(fr[i - |fj| - |fm|]);
      }
    }
  }

  lemma ItemDatesOfThree(fj: seq<JournalDoc>, fm: seq<MoodDoc>, fr: seq<ReflectionDoc>)
    ensures DatesOfItems(JournalItems(fj) + MoodItems(fm) + ReflectionItems(fr))
      == (set e | e in fj :: e.date) + (set m | m in fm :: m.date) + (set r | r in fr :: r.date)
  {
    var items := JournalItems(fj) + MoodItems(fm) + ReflectionItems(fr);
    forall d | d in DatesOfItems(items)
      ensures d in (set e | e in fj :: e.date) + (set m | m in fm :: m.date) + (set r | r in fr :: r.date)
    {
      var i :| 0 <= i < |items| && ItemDate(items[i]) == d;
      if i < |fj| {
        assert items[i] == JournalItem(fj[i]);
      } else if i < |fj| + |fm| {
        assert items[i] == MoodItem(fm[i - |fj|]);
      } else {
        assert items[i] == ReflectionItem(fr[i - |fj| - |fm|]);
      }
    }
    forall e | e in fj ensures e.date in DatesOfItems(items) {
      var i :| 0 <= i < |fj| && fj[i] == e;
      assert items[i] == JournalItem(e);
    }
    forall m | m in fm ensures m.date in DatesOfItems(items) {
      var i :| 0 <= i < |fm| && fm[i] == m;
      assert items[|fj| + i] == MoodItem(m);
    }
    forall r | r in fr ensures r.date in DatesOfItems(items) {
      var i :| 0 <= i < |fr| && fr[i] == r;
      assert items[|fj| + |fm| + i] == ReflectionItem(r);
    }
  }

  // ---------------------------------------------------------------------
  // Where each document of the month lands.
  // ---------------------------------------------------------------------

  /** The five slots of a day. */
  datatype Slot = MyEntrySlot | PartnerEntrySlot | MyMoodSlot | PartnerMoodSlot | ReflectionOfDay

  /** The slot a document goes to: the user's own documents to `my_*`,
      every other to `partner_*`. */
  function SlotOf(it: Item, u: string): Slot
  {
    match it
    case JournalItem(e) => if e.userId == u then MyEntrySlot else PartnerEntrySlot
    case MoodItem(m) => if m.userId == u then MyMoodSlot else PartnerMoodSlot
    case ReflectionItem(_) => ReflectionOfDay
  }

  predicate Filled(day: DayEntry, s: Slot)
  {
    match s
    case MyEntrySlot => day.myEntry.Some?
    case PartnerEntrySlot => day.partnerEntry.Some?
    case MyMoodSlot => day.myMood.Some?
    case PartnerMoodSlot => day.partnerMood.Some?
    case ReflectionOfDay => day.reflection.Some?
  }

  /** The slot of `it` holds exactly `it`. */
  predicate Holds(day: DayEntry, it: Item, u: string)
  {
    match it
    case JournalItem(e) => if e.userId == u then day.myEntry == Some(e) else day.partnerEntry == Some(e)
    case MoodItem(m) => if m.userId == u then day.myMood == Some(m) else day.partnerMood == Some(m)
    case ReflectionItem(r) => day.reflection == Some(r)
  }

  /** `calendar_data[d]`: the day dated `d`, if any. */
  function DayAt(days: seq<DayEntry>, d: string): Option<DayEntry>
  {
    First(days, DateIs(d))
  }

  /** The day of `d` on which the slot of `it` is filled. */
  predicate SlotTaken(days: seq<DayEntry>, it: Item, u: string)
  {
    DayAt(days, ItemDate(it)).Some? && Filled(DayAt(days, ItemDate(it)).value, SlotOf(it, u))
  }

  /** The day of `d` whose slot for `it` holds exactly `it`. */
  predicate ItemPlaced(days: seq<DayEntry>, it: Item, u: string)
  {
    DayAt(days, ItemDate(it)).Some? && Holds(DayAt(days, ItemDate(it)).value, it, u)
  }

  /** Filling puts the document in its slot and leaves the other slots
      as they were. */
  lemma FillSlots(day: DayEntry, it: Item, other: Item, u: string)
    ensures Fill(day, it, u).date == day.date
    ensures Holds(Fill(day, it, u), it, u) && Filled(Fill(day, it, u), SlotOf(it, u))
    ensures Filled(day, SlotOf(other, u)) ==> Filled(Fill(day, it, u), SlotOf(other, u))
    ensures Holds(day, other, u) && (SlotOf(other, u) != SlotOf(it, u) || other == it) ==>
      Holds(Fill(day, it, u), other, u)
  {
  }

  /** Placing works like `calendar_data[date]`: the day of the document's
      date is the existing one, or a new empty one, filled with it; every
      other date keeps its day. */
  lemma PlaceDayAt(days: seq<DayEntry>, it: Item, u: string, d: string)
    ensures DayAt(Place(days, it, u), d) == if d != ItemDate(it) then DayAt(days, d)
      else Some(Fill(if DayAt(days, d).Some? then DayAt(days, d).value
        else DayEntry(d, None, None, None, None, None), it, u))
  {
    var e := ItemDate(it);
    var k := FirstIndex(days, DateIs(e));
    var day := if k == -1 then DayEntry(e, None, None, None, None, None) else days[k];
    FillSlots(day, it, it, u);
    if k == -1 {
      FirstAppend(days, Fill(day, it, u), DateIs(d));
      if d == e {
        assert First(days, DateIs(d)).None?;
      }
    } else {
      var r := days[k := Fill(day, it, u)];
      FirstIndexSameMatches(days, DateIs(d), r, DateIs(d));
      var j := FirstIndex(days, DateIs(d));
      if j >= 0 {
        assert j != k ==> r[j] == days[j];
        assert j == k <==> d == e;
      }
    }
  }

  /** After placing documents one by one, the slot of each is filled on
      the day of its date. */
  lemma {:induction false} PlaceAllFilled(days: seq<DayEntry>, items: seq<Item>, u: string, i: nat)
    requires i < |items|
    ensures SlotTaken(PlaceAll(days, items, u), items[i], u)
    decreases |items|
  {
    var front := items[..|items| - 1];
    var last := items[|items| - 1];
    var d := ItemDate(items[i]);
    var before := PlaceAll(days, front, u);
    PlaceDayAt(before, last, u, d);
    if i == |items| - 1 {
      FillSlots(if DayAt(before, d).Some? then DayAt(before, d).value
        else DayEntry(d, None, None, None, None, None), last, last, u);
    } else {
      assert front[i] == items[i];
      PlaceAllFilled(days, front, u, i);
      if ItemDate(last) == d {
        FillSlots(DayAt(before, d).value, last, items[i], u);
      }
    }
  }

  /** A document no later document displaces (one of the same date and
      slot, other than itself) is what its slot holds at the end. */
  lemma {:induction false} PlaceAllHolds(days: seq<DayEntry>, items: seq<Item>, u: string, i: nat)
    requires i < |items|
    requires forall j :: (i < j < |items| && ItemDate(items[j]) == ItemDate(items[i])
      && SlotOf(items[j], u) == SlotOf(items[i], u)) ==> items[j] == items[i]
    ensures ItemPlaced(PlaceAll(days, items, u), items[i], u)
    decreases |items|
  {
    var front := items[..|items| - 1];
    var last := items[|items| - 1];
    var d := ItemDate(items[i]);
    var before := PlaceAll(days, front, u);
    PlaceDayAt(before, last, u, d);
    if i == |items| - 1 {
      FillSlots(if DayAt(before, d).Some? then DayAt(before, d).value
        else DayEntry(d, None, None, None, None, None), last, last, u);
    } else {
      assert front[i] == items[i];
      assert forall j :: i < j < |front| ==> front[j] == items[j];
      PlaceAllHolds(days, front, u, i);
      if ItemDate(last) == d {
        FillSlots(DayAt(before, d).value, last, items[i], u);
      }
    }
  }

  /** Where the documents of the three queries sit in the item list. */
  lemma ItemsAt(fj: seq<JournalDoc>, fm: seq<MoodDoc>, fr: seq<ReflectionDoc>)
    ensures var items := JournalItems(fj) + MoodItems(fm) + ReflectionItems(fr);
      && |items| == |fj| + |fm| + |fr|
      && (forall i :: 0 <= i < |fj| ==> items[i] == JournalItem(fj[i]))
      && (forall i :: 0 <= i < |fm| ==> items[|fj| + i] == MoodItem(fm[i]))
      && (forall i :: 0 <= i < |fr| ==> items[|fj| + |fm| + i] == ReflectionItem(fr[i]))
  {
  }

  /** One journal document per user and date, stated on documents. */
  lemma JournalUnique(js: seq<JournalDoc>, a: JournalDoc, b: JournalDoc)
    requires OneJournalPerDay(js) && a in js && b in js && a.userId == b.userId && a.date == b.date
    ensures a == b
  {
    var i :| 0 <= i < |js| && js[i] == a;
    var j :| 0 <= j < |js| && js[j] == b;
    assert !(i < j) && !(j < i);
  }

  /** One mood document per user and date, stated on documents. */
  lemma MoodUnique(ms: seq<MoodDoc>, a: MoodDoc, b: MoodDoc)
    requires OneMoodPerDay(ms) && a in ms && b in ms && a.userId == b.userId && a.date == b.date
    ensures a == b
  {
    var i :| 0 <= i < |ms| && ms[i] == a;
    var j :| 0 <= j < |ms| && ms[j] == b;
    assert !(i < j) && !(j < i);
  }

  /** With one journal per user and date, no later document displaces a
      queried journal entry, so its slot holds it. */
  lemma JournalPlaced(js: seq<JournalDoc>, fm: seq<MoodDoc>, fr: seq<ReflectionDoc>,
      u: string, p: string, month: string, i: nat)
    requires OneJournalPerDay(js)
    requires i < |Filter(js, JournalInMonth(u, p, month))|
    ensures var fj := Filter(js, JournalInMonth(u, p, month));
      ItemPlaced(PlaceAll([], JournalItems(fj) + MoodItems(fm) + ReflectionItems(fr), u), JournalItem(fj[i]), u)
  {
    var fj := Filter(js, JournalInMonth(u, p, month));
    var items := JournalItems(fj) + MoodItems(fm) + ReflectionItems(fr);
    ItemsAt(fj, fm, fr);
    forall j | i < j < |items|
      ensures ItemDate(items[j]) == ItemDate(items[i]) && SlotOf(items[j], u) == SlotOf(items[i], u) ==>
        items[j] == items[i]
    {
      if j < |fj| {
        var a, b := fj[j], fj[i];
        assert a in fj && b in fj;
        if a.date == b.date && SlotOf(items[j], u) == SlotOf(items[i], u) {
          assert a.userId == b.userId;
          JournalUnique(js, a, b);
        }
      } else if j < |fj| + |fm| {
        assert items[j] == MoodItem(fm[j - |fj|]);
      } else {
        assert items[j] == ReflectionItem(fr[j - |fj| - |fm|]);
      }
    }
    PlaceAllHolds([], items, u, i);
  }

  /** With one mood per user and date, no later document displaces a
      queried mood, so its slot holds it. */
  lemma MoodPlaced(fj: seq<JournalDoc>, ms: seq<MoodDoc>, fr: seq<ReflectionDoc>,
      u: string, p: string, month: string, i: nat)
    requires OneMoodPerDay(ms)
    requires i < |Filter(ms, MoodInMonth(u, p, month))|
    ensures var fm := Filter(ms, MoodInMonth(u, p, month));
      ItemPlaced(PlaceAll([], JournalItems(fj) + MoodItems(fm) + ReflectionItems(fr), u), MoodItem(fm[i]), u)
  {
    var fm := Filter(ms, MoodInMonth(u, p, month));
    var items := JournalItems(fj) + MoodItems(fm) + ReflectionItems(fr);
    ItemsAt(fj, fm, fr);
    var k := |fj| + i;
    forall j | k < j < |items|
      ensures ItemDate(items[j]) == ItemDate(items[k]) && SlotOf(items[j], u) == SlotOf(items[k], u) ==>
        items[j] == items[k]
    {
      if j < |fj| + |fm| {
        var a, b := fm[j - |fj|], fm[i];
        assert items[j] == MoodItem(a);
        assert a in fm && b in fm;
        if a.date == b.date && SlotOf(items[j], u) == SlotOf(items[k], u) {
          assert a.userId == b.userId;
          MoodUnique(ms, a, b);
        }
      } else {
        assert items[j] == ReflectionItem(fr[j - |fj| - |fm|]);
      }
    }
    PlaceAllHolds([], items, u, k);
  }

  /** Where the month view puts the month's documents: every queried
      journal entry, mood and reflection fills its slot on the day of its
      date (`my_*` for the user's own, `partner_*` for the partner's); and
      as the upserts keep one journal and one mood per user and date, the
      `my_*` and `partner_*` slots hold exactly those documents. */
  lemma CalendarViewPlaces(users: seq<UserDoc>, js: seq<JournalDoc>, ms: seq<MoodDoc>, rs: seq<ReflectionDoc>,
      u: string, month: string)
    ensures var user := First(users, UserIdIs(u));
      user.Some? && PartnerIdOf(user.value).Some? ==>
        var p := PartnerIdOf(user.value).value;
        var days := CalendarView(users, js, ms, rs, u, month);
        && (forall e :: e in Filter(js, JournalInMonth(u, p, month)) ==> SlotTaken(days, JournalItem(e), u))
        && (forall m :: m in Filter(ms, MoodInMonth(u, p, month)) ==> SlotTaken(days, MoodItem(m), u))
        && (forall r :: r in Filter(rs, ReflectionInMonth(u, month)) ==> SlotTaken(days, ReflectionItem(r), u))
        && (OneJournalPerDay(js) ==>
              forall e :: e in Filter(js, JournalInMonth(u, p, month)) ==> ItemPlaced(days, JournalItem(e), u))
        && (OneMoodPerDay(ms) ==>
              forall m :: m in Filter(ms, MoodInMonth(u, p, month)) ==> ItemPlaced(days, MoodItem(m), u))
  {
    var user := First(users, UserIdIs(u));
    if user.Some? && PartnerIdOf(user.value).Some? {
      var p := PartnerIdOf(user.value).value;
      var fj := Filter(js, JournalInMonth(u, p, month));
      var fm := Filter(ms, MoodInMonth(u, p, month));
      var fr := Filter(rs, ReflectionInMonth(u, month));
      var days := PlaceAll([], JournalItems(fj) + MoodItems(fm) + ReflectionItems(fr), u);
      assert days == CalendarView(users, js, ms, rs, u, month);
      QueriedFilled(fj, fm, fr, u);
      if OneJournalPerDay(js) {
        JournalsPlaced(js, fm, fr, u, p, month);
      }
      if OneMoodPerDay(ms) {
        MoodsPlaced(fj, ms, fr, u, p, month);
      }
    }
  }

  /** Every document of the three queries fills its slot. */
  lemma QueriedFilled(fj: seq<JournalDoc>, fm: seq<MoodDoc>, fr: seq<ReflectionDoc>, u: string)
    ensures var days := PlaceAll([], JournalItems(fj) + MoodItems(fm) + ReflectionItems(fr), u);
      && (forall e :: e in fj ==> SlotTaken(days, JournalItem(e), u))
      && (forall m :: m in fm ==> SlotTaken(days, MoodItem(m), u))
      && (forall r :: r in fr ==> SlotTaken(days, ReflectionItem(r), u))
  {
    var items := JournalItems(fj) + MoodItems(fm) + ReflectionItems(fr);
    var days := PlaceAll([], items, u);
    ItemsAt(fj, fm, fr);
    forall e | e in fj ensures SlotTaken(days, JournalItem(e), u) {
      var i :| 0 <= i < |fj| && fj[i] == e;
      PlaceAllFilled([], items, u, i);
    }
    forall m | m in fm ensures SlotTaken(days, MoodItem(m), u) {
      var i :| 0 <= i < |fm| && fm[i] == m;
      PlaceAllFilled([], items, u, |fj| + i);
    }
    forall r | r in fr ensures SlotTaken(days, ReflectionItem(r), u) {
      var i :| 0 <= i < |fr| && fr[i] == r;
      PlaceAllFilled([], items, u, |fj| + |fm| + i);
    }
  }

  lemma JournalsPlaced(js: seq<JournalDoc>, fm: seq<MoodDoc>, fr: seq<ReflectionDoc>, u: string, p: string, month: string)
    requires OneJournalPerDay(js)
    ensures var fj := Filter(js, JournalInMonth(u, p, month));
      forall e :: e in fj ==> ItemPlaced(PlaceAll([], JournalItems(fj) + MoodItems(fm) + ReflectionItems(fr), u),
        JournalItem(e), u)
  {
    var fj := Filter(js, JournalInMonth(u, p, month));
    forall e | e in fj
      ensures ItemPlaced(PlaceAll([], JournalItems(fj) + MoodItems(fm) + ReflectionItems(fr), u), JournalItem(e), u)
    {
      var i :| 0 <= i < |fj| && fj[i] == e;
      JournalPlaced(js, fm, fr, u, p, month, i);
    }
  }

  lemma MoodsPlaced(fj: seq<JournalDoc>, ms: seq<MoodDoc>, fr: seq<ReflectionDoc>, u: string, p: string, month: string)
    requires OneMoodPerDay(ms)
    ensures var fm := Filter(ms, MoodInMonth(u, p, month));
      forall m :: m in fm ==> ItemPlaced(PlaceAll([], JournalItems(fj) + MoodItems(fm) + ReflectionItems(fr), u),
        MoodItem(m), u)
  {
    var fm := Filter(ms, MoodInMonth(u, p, month));
    forall m | m in fm
      ensures ItemPlaced(PlaceAll([], JournalItems(fj) + MoodItems(fm) + ReflectionItems(fr), u), MoodItem(m), u)
    {
      var i :| 0 <= i < |fm| && fm[i] == m;
      MoodPlaced(fj, ms, fr, u, p, month, i);
    }
  }

  /** `PlaceAll` over a concatenation is two passes, one after the other. */
  lemma {:induction false} PlaceAllAppend(days: seq<DayEntry>, a: seq<Item>, b: seq<Item>, u: string)
    ensures PlaceAll(days, a + b, u) == PlaceAll(PlaceAll(days, a, u), b, u)
    decreases |b|
  {
    if b == [] {
      assert a + b == a;
    } else {
      var front := b[..|b| - 1];
      assert (a + b)[..|a + b| - 1] == a + front;
      assert (a + b)[|a + b| - 1] == b[|b| - 1];
      PlaceAllAppend(days, a, front, u);
    }
  }

  // ---------------------------------------------------------------------
  // generate_reflection: at most one reflection per couple and date.
  // ---------------------------------------------------------------------

  const MongoFallback: string :=
    "Two hearts sharing their world through words, creating a tapestry of love that grows stronger with each passing day. In your shared stories, the beauty of your connection shines brightest."

  /** The saved text: the stripped reply, or the fixed fallback sentence when
      the call raised or the reply had no content. */
  function MongoReflectionText(outcome: LlmOutcome): (text: string)
    ensures outcome.Failed? || outcome.content.None? ==> text == MongoFallback
    ensures outcome.Reply? && outcome.content.Some? ==> text == Strip(outcome.content.value)
    ensures text == MongoFallback || (text != [] ==> !IsSpace(text[0]) && !IsSpace(text[|text| - 1]))
  {
    match outcome
    case Reply(Some(c)) => StripMeaning(c); Strip(c)
    case _ => MongoFallback
  }

  /** `{"date": d, "user_ids": {"$all": [u, p]}}`: both ids, in any order. */
  function CoversCouple(d: string, u: string, p: string): ReflectionDoc -> bool
  {
    (r: ReflectionDoc) => r.date == d && u in r.userIds && p in r.userIds
  }

  /** The answer of the endpoint and the reflection collection afterwards. */
  function Reflect(users: seq<UserDoc>, js: seq<JournalDoc>, rs: seq<ReflectionDoc>, u: string, d: string,
      llm: LlmOutcome, newId: string): (Result<ReflectionDoc>, seq<ReflectionDoc>)
  {
    var user := First(users, UserIdIs(u));
    if user.None? || PartnerIdOf(user.value).None? then (Err(NoPartner), rs)
    else
      var p := PartnerIdOf(user.value).value;
      if First(js, JournalKeyIs(u, d)).None? || First(js, JournalKeyIs(p, d)).None? then (Err(MissingEntries), rs)
      else
        var existing := First(rs, CoversCouple(d, u, p));
        if existing.Some? then (Ok(existing.value), rs)
        else
          var r := ReflectionDoc(newId, d, [u, p], MongoReflectionText(llm));
          (Ok(r), rs + [r])
  }

  predicate HasEntry(js: seq<JournalDoc>, u: string, d: string)
  {
    exists i :: 0 <= i < |js| && js[i].userId == u && js[i].date == d
  }

  predicate HasCoupleReflection(rs: seq<ReflectionDoc>, d: string, u: string, p: string)
  {
    exists i :: 0 <= i < |rs| && rs[i].date == d && u in rs[i].userIds && p in rs[i].userIds
  }

  lemma FirstJournalKey(js: seq<JournalDoc>, u: string, d: string)
    ensures First(js, JournalKeyIs(u, d)).Some? <==> HasEntry(js, u, d)
  {
    FirstMeaning(js, JournalKeyIs(u, d));
    if HasEntry(js, u, d) {
      var i :| 0 <= i < |js| && js[i].userId == u && js[i].date == d;
      assert JournalKeyIs(u, d)(js[i]);
    }
  }

  lemma FirstCouple(rs: seq<ReflectionDoc>, d: string, u: string, p: string)
    ensures var f := First(rs, CoversCouple(d, u, p));
      && (f.Some? <==> HasCoupleReflection(rs, d, u, p))
      && (f.Some? ==> f.value in rs && f.value.date == d && u in f.value.userIds && p in f.value.userIds)
  {
    FirstMeaning(rs, CoversCouple(d, u, p));
    if HasCoupleReflection(rs, d, u, p) {
      var i :| 0 <= i < |rs| && rs[i].date == d && u in rs[i].userIds && p in rs[i].userIds;
      assert CoversCouple(d, u, p)(rs[i]);
    }
  }

  /** No partner and a missing entry are errors that change nothing; an
      existing reflection naming both partners on that date is returned
      as is; otherwise exactly one reflection for the couple is appended. */
  lemma ReflectMeaning(users: seq<UserDoc>, js: seq<JournalDoc>, rs: seq<ReflectionDoc>, u: string, d: string,
      llm: LlmOutcome, newId: string)
    ensures var (r, rs') := Reflect(users, js, rs, u, d, llm, newId);
      var user := First(users, UserIdIs(u));
      && (r == Err(NoPartner) <==> user.None? || PartnerIdOf(user.value).None?)
      && (r.Err? ==> rs' == rs && (r.error == NoPartner || r.error == MissingEntries))
      && (user.Some? && PartnerIdOf(user.value).Some? ==>
            var p := PartnerIdOf(user.value).value;
            && (r == Err(MissingEntries) <==> !HasEntry(js, u, d) || !HasEntry(js, p, d))
            && (r.Ok? ==> r.value.date == d && u in r.value.userIds && p in r.value.userIds)
            && (r.Ok? && HasCoupleReflection(rs, d, u, p) ==> rs' == rs && r.value in rs)
            && (r.Ok? && !HasCoupleReflection(rs, d, u, p) ==>
                  r.value == ReflectionDoc(newId, d, [u, p], MongoReflectionText(llm)) && rs' == rs + [r.value]))
  {
    var user := First(users, UserIdIs(u));
    if user.Some? && PartnerIdOf(user.value).Some? {
      var p := PartnerIdOf(user.value).value;
      FirstJournalKey(js, u, d);
      FirstJournalKey(js, p, d);
      FirstCouple(rs, d, u, p);
    }
  }

  /** When the language model fails for a couple who both wrote that day
      and have no reflection yet, a reflection carrying the fallback
      sentence is still saved. */
  lemma ReflectFallback(users: seq<UserDoc>, js: seq<JournalDoc>, rs: seq<ReflectionDoc>, u: string, d: string,
      newId: string)
    requires First(users, UserIdIs(u)).Some? && PartnerIdOf(First(users, UserIdIs(u)).value).Some?
    requires var p := PartnerIdOf(First(users, UserIdIs(u)).value).value;
      HasEntry(js, u, d) && HasEntry(js, p, d) && !HasCoupleReflection(rs, d, u, p)
    ensures var (r, rs') := Reflect(users, js, rs, u, d, Failed, newId);
      r.Ok? && r.value.reflection == MongoFallback && rs' == rs + [r.value]
  {
    ReflectMeaning(users, js, rs, u, d, Failed, newId);
  }

  /** Asking again for the same day returns the same reflection and saves
      nothing, whatever the model answers the second time. */
  lemma ReflectIdempotent(users: seq<UserDoc>, js: seq<JournalDoc>, rs: seq<ReflectionDoc>, u: string, d: string,
      llm1: LlmOutcome, llm2: LlmOutcome, id1: string, id2: string)
    ensures var (r1, rs1) := Reflect(users, js, rs, u, d, llm1, id1);
      Reflect(users, js, rs1, u, d, llm2, id2) == (r1, rs1)
  {
    var user := First(users, UserIdIs(u));
    if user.Some? && PartnerIdOf(user.value).Some? {
      var p := PartnerIdOf(user.value).value;
      if First(js, JournalKeyIs(u, d)).Some? && First(js, JournalKeyIs(p, d)).Some?
        && First(rs, CoversCouple(d, u, p)).None?
      {
        var r := ReflectionDoc(id1, d, [u, p], MongoReflectionText(llm1));
        FirstAppend(rs, r, CoversCouple(d, u, p));
        assert CoversCouple(d, u, p)(r);
      }
    }
  }

  // ---------------------------------------------------------------------
  // get_stats: entry, shared-day and reflection counts.
  // ---------------------------------------------------------------------

  datatype Stats = Stats(totalEntries: nat, sharedDays: nat, reflections: nat, hasPartner: bool)

  /** The dates on which `u` has a journal document. */
  function DatesBy(js: seq<JournalDoc>, u: string): set<string>
  {
    set i | 0 <= i < |js| && js[i].userId == u :: js[i].date
  }

  function OwnedBy(u: string): JournalDoc -> bool
  {
    (e: JournalDoc) => e.userId == u
  }

  function NamesUser(u: string): ReflectionDoc -> bool
  {
    (r: ReflectionDoc) => u in r.userIds
  }

  /** `distinct("date", {"user_id": u})`, in first-seen order. */
  function DistinctDates(js: seq<JournalDoc>, u: string): seq<string>
  {
    if js == [] then []
    else
      var ds := DistinctDates(js[..|js| - 1], u);
      var e := js[|js| - 1];
      if e.userId == u && e.date !in ds then ds + [e.date] else ds
  }

  predicate NoDuplicates(ds: seq<string>)
  {
    forall i, j :: 0 <= i < j < |ds| ==> ds[i] != ds[j]
  }

  /** The distinct dates are exactly the user's dates, each once. */
  lemma {:induction false} DistinctDatesMeaning(js: seq<JournalDoc>, u: string)
    ensures NoDuplicates(DistinctDates(js, u))
    ensures SetOf(DistinctDates(js, u)) == DatesBy(js, u)
  {
    if js != [] {
      var front := js[..|js| - 1];
      DistinctDatesMeaning(front, u);
      assert forall i :: 0 <= i < |front| ==> front[i] == js[i];
      assert DatesBy(js, u) == DatesBy(front, u) + (if js[|js| - 1].userId == u then {js[|js| - 1].date} else {});
    }
  }

  function SetOf(ds: seq<string>): set<string>
  {
    set x | x in ds
  }

  lemma HasEntryDates(js: seq<JournalDoc>, u: string, d: string)
    ensures HasEntry(js, u, d) <==> d in DatesBy(js, u)
  {
    if d in DatesBy(js, u) {
      var i :| 0 <= i < |js| && js[i].userId == u && js[i].date == d;
    }
  }

  /** Counting one more distinct date adds one exactly when the partner
      wrote on it. */
  lemma SharedStep(seen: seq<string>, d: string, partnerDates: set<string>)
    requires d !in seen
    ensures |SetOf(seen + [d]) * partnerDates| == |SetOf(seen) * partnerDates| + (if d in partnerDates then 1 else 0)
  {
    var before := SetOf(seen) * partnerDates;
    assert SetOf(seen + [d]) == SetOf(seen) + {d};
    if d in partnerDates {
      assert SetOf(seen + [d]) * partnerDates == before + {d};
    } else {
      assert SetOf(seen + [d]) * partnerDates == before;
    }
  }

  lemma CountStep(js: seq<JournalDoc>, dates: seq<string>, i: nat, p: string)
    requires NoDuplicates(dates) && i < |dates|
    ensures |SetOf(dates[..i + 1]) * DatesBy(js, p)| == |SetOf(dates[..i]) * DatesBy(js, p)|
      + (if First(js, JournalKeyIs(p, dates[i])).Some? then 1 else 0)
  {
    assert dates[..i + 1] == dates[..i] + [dates[i]];
    assert dates[i] !in dates[..i];
    SharedStep(dates[..i], dates[i], DatesBy(js, p));
    FirstJournalKey(js, p, dates[i]);
    HasEntryDates(js, p, dates[i]);
  }

  /** The shared days are at most the user's own distinct dates, and none
      without a partner to share them with. */
  lemma SharedDaysBound(js: seq<JournalDoc>, u: string, p: string)
    ensures |DatesBy(js, u) * DatesBy(js, p)| <= |DatesBy(js, u)|
  {
    Couples.SubsetCard(DatesBy(js, u) * DatesBy(js, p), DatesBy(js, u));
  }

  /** The collections of the variant, each in insertion order. */
  class MongoDb {
    var users: seq<UserDoc>
    var journals: seq<JournalDoc>
    var moods: seq<MoodDoc>
    var reflections: seq<ReflectionDoc>

    /** What the handlers keep: one account per email, one journal and one
        mood document per user and date. */
    ghost predicate Valid()
      reads this
    {
      EmailsUnique(users) && OneJournalPerDay(journals) && OneMoodPerDay(moods)
    }

    constructor ()
      ensures Valid()
      ensures users == [] && journals == [] && moods == [] && reflections == []
    {
      users, journals, moods, reflections := [], [], [], [];
    }

    /** `register`: refuses a known email, otherwise inserts one account
        without a partner and with an eight-character invite code. */
    method Register(email: string, name: string, passwordHash: string, newId: string, uuidText: string)
        returns (r: Result<UserDoc>)
      requires Valid()
      requires |uuidText| == 36
      modifies this
      ensures Valid()
      ensures r.Err? <==> exists i :: 0 <= i < |old(users)| && old(users)[i].email == email
      ensures r.Err? ==> r.error == EmailTaken && users == old(users)
      ensures r.Ok? ==> (r.value == UserDoc(newId, email, name, None, Some(InviteCodeOf(uuidText)), passwordHash)
        && |r.value.inviteCode.value| == 8 && users == old(users) + [r.value])
      ensures journals == old(journals) && moods == old(moods) && reflections == old(reflections)
    {
      var existing := First(users, EmailIs(email));
      FirstMeaning(users, EmailIs(email));
      if existing.Some? {
        return Err(EmailTaken);
      }
      assert forall i :: 0 <= i < |users| ==> users[i].email != email by {
        forall i | 0 <= i < |users| ensures users[i].email != email {
          assert !EmailIs(email)(users[i]);
        }
      }
      var u := UserDoc(newId, email, name, None, Some(InviteCodeOf(uuidText)), passwordHash);
      RegisterKeepsEmailsUnique(users, u);
      users := users + [u];
      r := Ok(u);
    }

    /** `invite_partner`: the first account with that invite code becomes the
        partner; an unknown code and the user's own code are errors. The
        answer carries the partner's name. */
    method InvitePartner(u: string, code: string) returns (r: Result<string>)
      requires Valid()
      modifies this
      ensures Valid()
      ensures var k := FirstIndex(old(users), CodeIs(code));
        && (r == Err(InvalidInviteCode) <==> k == -1)
        && (r == Err(SelfInvite) <==> k >= 0 && old(users)[k].id == u)
        && (k >= 0 && old(users)[k].id != u ==> r.Ok?)
        && (r.Err? ==> users == old(users))
        && (r.Ok? ==> (k >= 0 && r.value == old(users)[k].name
              && users == LinkFirst(LinkFirst(old(users), u, old(users)[k].id), old(users)[k].id, u)))
      ensures journals == old(journals) && moods == old(moods) && reflections == old(reflections)
    {
      var k := FirstIndex(users, CodeIs(code));
      if k == -1 {
        return Err(InvalidInviteCode);
      }
      var partner := users[k];
      if partner.id == u {
        return Err(SelfInvite);
      }
      users := LinkFirst(users, u, partner.id);
      users := LinkFirst(users, partner.id, u);
      r := Ok(partner.name);
    }

    /** `create_journal_entry`: an upsert keyed by user and date; the answer
        is the stored document. */
    method CreateJournalEntry(u: string, d: string, content: string, mood: Option<string>, newId: string)
        returns (e: JournalDoc)
      requires Valid()
      modifies this
      ensures Valid()
      ensures journals == UpsertJournal(old(journals), u, d, content, mood, newId)
      ensures e in journals && e.userId == u && e.date == d && e.content == content && e.mood == mood
      ensures users == old(users) && moods == old(moods) && reflections == old(reflections)
    {
      UpsertJournalMeaning(journals, u, d, content, mood, newId);
      var k := FirstIndex(journals, JournalKeyIs(u, d));
      if k == -1 {
        e := JournalDoc(newId, u, content, d, mood, None);
        journals := journals + [e];
      } else {
        e := journals[k].(content := content, mood := mood);
        journals := journals[k := e];
      }
    }

    /** `create_mood_entry`: an upsert keyed by user and date. */
    method CreateMoodEntry(u: string, d: string, mood: string, newId: string) returns (m: MoodDoc)
      requires Valid()
      modifies this
      ensures Valid()
      ensures moods == UpsertMood(old(moods), u, d, mood, newId)
      ensures m in moods && m.userId == u && m.date == d && m.mood == mood
      ensures users == old(users) && journals == old(journals) && reflections == old(reflections)
    {
      UpsertMoodMeaning(moods, u, d, mood, newId);
      var k := FirstIndex(moods, MoodKeyIs(u, d));
      if k == -1 {
        m := MoodDoc(newId, u, mood, d);
        moods := moods + [m];
      } else {
        m := moods[k].(mood := mood);
        moods := moods[k := m];
      }
    }

    /** `get_calendar_data`: the three loops that fill `calendar_data`. */
    method GetCalendarData(u: string, month: string) returns (days: seq<DayEntry>)
      ensures days == CalendarView(users, journals, moods, reflections, u, month)
    {
      var user := First(users, UserIdIs(u));
      if user.None? || PartnerIdOf(user.value).None? {
        return [];
      }
      var p := PartnerIdOf(user.value).value;
      var entries := Filter(journals, JournalInMonth(u, p, month));
      var ms := Filter(moods, MoodInMonth(u, p, month));
      var rs := Filter(reflections, ReflectionInMonth(u, month));
      days := PlaceEach([], JournalItems(entries), u);
      days := PlaceEach(days, MoodItems(ms), u);
      days := PlaceEach(days, ReflectionItems(rs), u);
      PlaceAllAppend([], JournalItems(entries), MoodItems(ms), u);
      PlaceAllAppend([], JournalItems(entries) + MoodItems(ms), ReflectionItems(rs), u);
    }

    /** One of the loops of `get_calendar_data`: each document in turn goes
        to the day of its date. */
    static method PlaceEach(start: seq<DayEntry>, items: seq<Item>, u: string) returns (days: seq<DayEntry>)
      ensures days == PlaceAll(start, items, u)
    {
      days := start;
      for i := 0 to |items|
        invariant days == PlaceAll(start, items[..i], u)
      {
        assert items[..i + 1][..i] == items[..i];
        days := Place(days, items[i], u);
      }
      assert items[..|items|] == items;
    }

    /** The counting loop of `get_stats`: the given dates on which `p` has
        a journal document. */
    static method CountShared(js: seq<JournalDoc>, dates: seq<string>, p: string) returns (shared: nat)
      requires NoDuplicates(dates)
      ensures shared == |SetOf(dates) * DatesBy(js, p)|
    {
      shared := 0;
      for i := 0 to |dates|
        invariant shared == |SetOf(dates[..i]) * DatesBy(js, p)|
      {
        var found := First(js, JournalKeyIs(p, dates[i]));
        CountStep(js, dates, i, p);
        if found.Some? {
          shared := shared + 1;
        }
      }
      assert dates[..|dates|] == dates;
    }

    /** `generate_reflection`, with the model's outcome and the new id given. */
    method GenerateReflection(u: string, d: string, llm: LlmOutcome, newId: string) returns (r: Result<ReflectionDoc>)
      requires Valid()
      modifies this
      ensures Valid()
      ensures (r, reflections) == Reflect(old(users), old(journals), old(reflections), u, d, llm, newId)
      ensures users == old(users) && journals == old(journals) && moods == old(moods)
    {
      var user := First(users, UserIdIs(u));
      if user.None? || PartnerIdOf(user.value).None? {
        return Err(NoPartner);
      }
      var p := PartnerIdOf(user.value).value;
      var mine := First(journals, JournalKeyIs(u, d));
      var theirs := First(journals, JournalKeyIs(p, d));
      if mine.None? || theirs.None? {
        return Err(MissingEntries);
      }
      var existing := First(reflections, CoversCouple(d, u, p));
      if existing.Some? {
        return Ok(existing.value);
      }
      var text := MongoReflectionText(llm);
      var saved := ReflectionDoc(newId, d, [u, p], text);
      reflections := reflections + [saved];
      r := Ok(saved);
    }

    /** `get_stats`: the user's entry count, the number of the user's
        distinct dates on which the partner also wrote, and the number of
        reflections naming the user. */
    method GetStats(u: string) returns (r: Result<Stats>)
      ensures var user := First(users, UserIdIs(u));
        && (r.Err? <==> user.None?)
        && (r.Err? ==> r.error == UserNotFound)
        && (r.Ok? ==> (
              && r.value.totalEntries == |Filter(journals, OwnedBy(u))|
              && r.value.reflections == |Filter(reflections, NamesUser(u))|
              && r.value.hasPartner == PartnerIdOf(user.value).Some?
              && (r.value.hasPartner ==> (r.value.sharedDays
                    == |DatesBy(journals, u) * DatesBy(journals, PartnerIdOf(user.value).value)|))
              && (!r.value.hasPartner ==> r.value.sharedDays == 0)
              && r.value.sharedDays <= |DatesBy(journals, u)|))
    {
      var user := First(users, UserIdIs(u));
      if user.None? {
        return Err(UserNotFound);
      }
      var total := |Filter(journals, OwnedBy(u))|;
      var shared := 0;
      var partner := PartnerIdOf(user.value);
      if partner.Some? {
        var p := partner.value;
        var myDates := DistinctDates(journals, u);
        DistinctDatesMeaning(journals, u);
        shared := CountShared(journals, myDates, p);
        SharedDaysBound(journals, u, p);
      }
      r := Ok(Stats(total, shared, |Filter(reflections, NamesUser(u))|, partner.Some?));
    }
  }
}
