/** Small pure pieces of the request handlers in backend/server.py:
    the partial-update field filter, the audio file name, the reflection
    text with its fallback, and the read-receipt filter. */
module Helpers {
  import opened Common
  import opened Records

  // ---------------------------------------------------------------------
  // update_journal_entry: keep only the fields that were given.
  // ---------------------------------------------------------------------

  /** `JournalEntryUpdate`: every field may be left out (`None`). */
  datatype JournalEntryUpdate = JournalEntryUpdate(
    content: Option<string>,
    mood: Option<string>,
    audioUrl: Option<string>)

  datatype Field = ContentField | MoodField | AudioUrlField

  function FieldValue(u: JournalEntryUpdate, f: Field): Option<string>
  {
    match f
    case ContentField => u.content
    case MoodField => u.mood
    case AudioUrlField => u.audioUrl
  }

  /** `{k: v for k, v in entry_data.dict().items() if v is not None}`, and
      the "No data to update" error when that leaves nothing. An empty
      string is a value, not a missing field. */
  function UpdateData(u: JournalEntryUpdate): (r: Result<map<Field, string>>)
    ensures r.Err? <==> forall f :: FieldValue(u, f).None?
    ensures r.Err? ==> r.error == NoDataToUpdate
    ensures r.Ok? ==> forall f :: (f in r.value <==> FieldValue(u, f).Some?)
    ensures r.Ok? ==> forall f :: f in r.value ==> r.value[f] == FieldValue(u, f).value
  {
    var m := map f: Field | FieldValue(u, f).Some? :: FieldValue(u, f).value;
    if m == map[] then
      assert forall f :: FieldValue(u, f).None? by {
        forall f ensures FieldValue(u, f).None? {
          assert f !in m;
        }
      }
      Err(NoDataToUpdate)
    else
      assert exists f :: FieldValue(u, f).Some? by {
        var f :| f in m;
      }
      Ok(m)
  }

  /** The row after `update(update_data)`: the given fields take their new
      values, everything else is kept. */
  function ApplyUpdate(e: JournalEntry, fields: map<Field, string>): (r: JournalEntry)
    ensures r.id == e.id && r.userId == e.userId && r.date == e.date && r.sharedWith == e.sharedWith
    ensures r.content == if ContentField in fields then fields[ContentField] else e.content
    ensures r.mood == if MoodField in fields then Some(fields[MoodField]) else e.mood
    ensures r.audioUrl == if AudioUrlField in fields then Some(fields[AudioUrlField]) else e.audioUrl
  {
    e.(content := if ContentField in fields then fields[ContentField] else e.content,
       mood := if MoodField in fields then Some(fields[MoodField]) else e.mood,
       audioUrl := if AudioUrlField in fields then Some(fields[AudioUrlField]) else e.audioUrl)
  }

  /** Updating with the fields an entry already has changes nothing. */
  lemma ApplyUpdateOwnValues(e: JournalEntry)
    requires e.mood.Some? && e.audioUrl.Some?
    ensures var u := JournalEntryUpdate(Some(e.content), e.mood, e.audioUrl);
      UpdateData(u).Ok? && ApplyUpdate(e, UpdateData(u).value) == e
  {
    var u := JournalEntryUpdate(Some(e.content), e.mood, e.audioUrl);
    assert FieldValue(u, ContentField).Some?;
  }

  // ---------------------------------------------------------------------
  // upload_audio: content-type check and the stored file name.
  // ---------------------------------------------------------------------

  /** `filename.split('.')[-1]`: what follows the last dot. */
  function AfterLastDot(s: string): (ext: string)
    requires '.' in s
    ensures '.' !in ext
    ensures exists p :: s == p + "." + ext
  {
    if s[|s| - 1] == '.' then
      assert s == s[..|s| - 1] + "." + "";
      ""
    else
      assert '.' in s[..|s| - 1] by {
        var i :| 0 <= i < |s| && s[i] == '.';
        assert s[..|s| - 1][i] == '.';
      }
      var ext := AfterLastDot(s[..|s| - 1]);
      var p :| s[..|s| - 1] == p + "." + ext;
      assert s == p + "." + (ext + [s[|s| - 1]]);
      ext + [s[|s| - 1]]
  }

  /** The file extension of an upload: after the last dot, or `mp3` when the
      name has no dot. */
  function Extension(filename: string): (ext: string)
    ensures '.' !in ext
    ensures '.' !in filename ==> ext == "mp3"
    ensures '.' in filename ==> exists p :: filename == p + "." + ext
  {
    if '.' in filename then AfterLastDot(filename) else "mp3"
  }

  /** Only content types starting with `audio/` are accepted; the stored name is
      `<user>/<uuid>.<extension>`. */
  function AudioFilename(contentType: string, filename: string, userId: UserId, fileUuid: string): (r: Result<string>)
    ensures r.Err? <==> !StartsWith(contentType, "audio/")
    ensures r.Err? ==> r.error == NotAudio
    ensures r.Ok? ==> exists ext :: (r.value == userId + "/" + fileUuid + "." + ext
      && '.' !in ext && ('.' !in filename ==> ext == "mp3")
      && ('.' in filename ==> exists p :: filename == p + "." + ext))
  {
    if !StartsWith(contentType, "audio/") then Err(NotAudio)
    else
      var ext := Extension(filename);
      Ok(userId + "/" + fileUuid + "." + ext)
  }

  // ---------------------------------------------------------------------
  // generate_ai_reflection: fixed fallback on any failure.
  // ---------------------------------------------------------------------

  /** What the language-model call gives back: a reply whose message content
      may be missing, or a raised error. */
  datatype LlmOutcome = Reply(content: Option<string>) | Failed

  const SupabaseFallback: string :=
    "In the tapestry of your shared day, love weaves beautiful patterns of connection and understanding."

  /** The reflection text: the stripped reply, or the fixed fallback sentence
      whenever the call raised, including a reply without content. */
  function GenerateAiReflection(outcome: LlmOutcome): (text: string)
    ensures outcome.Failed? || outcome.content.None? ==> text == SupabaseFallback
    ensures outcome.Reply? && outcome.content.Some? ==> text == Strip(outcome.content.value)
    ensures text == SupabaseFallback || (text != [] ==> !IsSpace(text[0]) && !IsSpace(text[|text| - 1]))
  {
    match outcome
    case Reply(Some(c)) => StripMeaning(c); Strip(c)
    case _ => SupabaseFallback
  }

  // ---------------------------------------------------------------------
  // log_entry_access: which rows produce a read receipt.
  // ---------------------------------------------------------------------

  /** The two columns of a journal or mood row that the access log reads. */
  datatype OwnedRow = OwnedRow(id: string, userId: UserId)

  function ReceiptFor(row: OwnedRow, viewer: UserId, entryType: string): AccessLog
  {
    AccessLog(row.id, entryType, viewer, row.userId)
  }

  /** Rows owned by someone other than the viewer, in order, as access logs. */
  function ReceiptsFor(rows: seq<OwnedRow>, viewer: UserId, entryType: string): (logs: seq<AccessLog>)
    ensures |logs| <= |rows|
    ensures forall i :: 0 <= i < |logs| ==> (logs[i].accessedBy == viewer
      && logs[i].entryOwner != viewer && logs[i].entryType == entryType)
  {
    if rows == [] then []
    else
      var logs := ReceiptsFor(rows[..|rows| - 1], viewer, entryType);
      var row := rows[|rows| - 1];
      if row.userId != viewer then logs + [ReceiptFor(row, viewer, entryType)] else logs
  }

  /** Every row owned by someone else yields exactly one receipt, and the
      receipts follow the order of the rows. */
  lemma {:induction false} ReceiptsForOrder(rows: seq<OwnedRow>, viewer: UserId, entryType: string, i: nat)
    requires i < |rows| && rows[i].userId != viewer
    ensures var k := |ReceiptsFor(rows[..i], viewer, entryType)|;
      k < |ReceiptsFor(rows, viewer, entryType)|
      && ReceiptsFor(rows, viewer, entryType)[k] == ReceiptFor(rows[i], viewer, entryType)
    decreases |rows|
  {
    if i < |rows| - 1 {
      assert rows[..|rows| - 1][..i] == rows[..i];
      ReceiptsForOrder(rows[..|rows| - 1], viewer, entryType, i);
    } else {
      assert rows[..i] == rows[..|rows| - 1];
    }
  }

  /** Rows the viewer does not own. */
  function ForeignTo(viewer: UserId): OwnedRow -> bool
  {
    (row: OwnedRow) => row.userId != viewer
  }

  /** The receipts are exactly the receipts of the rows owned by someone
      else, one each, in row order. */
  lemma {:induction false} ReceiptsForExact(rows: seq<OwnedRow>, viewer: UserId, entryType: string)
    ensures var foreign := Filter(rows, ForeignTo(viewer));
      ReceiptsFor(rows, viewer, entryType)
        == seq(|foreign|, i requires 0 <= i < |foreign| => ReceiptFor(foreign[i], viewer, entryType))
    decreases |rows|
  {
    if rows != [] {
      ReceiptsForExact(rows[..|rows| - 1], viewer, entryType);
    }
  }

  /** No receipts at all exactly when the viewer owns every row. */
  lemma {:induction false} ReceiptsForEmpty(rows: seq<OwnedRow>, viewer: UserId, entryType: string)
    ensures ReceiptsFor(rows, viewer, entryType) == [] <==> forall i :: 0 <= i < |rows| ==> rows[i].userId == viewer
  {
    if rows != [] {
      ReceiptsForEmpty(rows[..|rows| - 1], viewer, entryType);
      assert forall i :: 0 <= i < |rows| - 1 ==> rows[..|rows| - 1][i] == rows[i];
    }
  }

  /** The loop of `log_entry_access` that collects `access_logs`. */
  method BuildAccessLogs(rows: seq<OwnedRow>, viewer: UserId, entryType: string) returns (logs: seq<AccessLog>)
    ensures logs == ReceiptsFor(rows, viewer, entryType)
  {
    logs := [];
    for i := 0 to |rows|
      invariant logs == ReceiptsFor(rows[..i], viewer, entryType)
    {
      assert rows[..i + 1][..i] == rows[..i];
      if rows[i].userId != viewer {
        logs := logs + [ReceiptFor(rows[i], viewer, entryType)];
      }
    }
    assert rows[..|rows|] == rows;
  }
}
