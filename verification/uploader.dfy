/** The editable uploader (`InvoiceUploader`) as a state machine: the
    dropped file, the processing flag, the draft being edited, whether the
    uploader is open, and the records written to the `invoices` collection.
    The extraction request and the Firestore write are events carrying
    their outcomes; React's effect that recomputes the draft total is
    applied before the next event. */
module Uploader {
  import opened Collections
  import opened Text
  import opened Invoices
  import opened ParseRoute

  /** A dropped file, as far as the uploader uses it. */
  datatype File = File(name: string, mimeType: string)

  /** `InvoiceData`, held as whatever JSON the server sent: a field the
      body lacks is None. */
  datatype Draft = Draft(vendor: string, totalAmount: Option<real>, items: Option<seq<LineItem>>)

  /** A call of `addDoc` that has not settled yet: the draft as it was when
      the button was clicked, and the time of the click. */
  datatype PendingWrite = PendingWrite(draft: Draft, date: string)

  /** The document Firestore stores. */
  datatype SavedRecord = SavedRecord(vendor: string, items: seq<LineItem>, totalAmount: real, date: string)

  datatype State = State(file: Option<File>, processing: bool, draft: Option<Draft>,
                         showUploader: bool, writes: seq<PendingWrite>, saved: seq<SavedRecord>)

  const Initial := State(None, false, None, false, [], [])

  datatype Event =
    | OpenUploader                          // the "+" button
    | CloseUploader                         // the close button of the drop zone
    | Drop(accepted: seq<File>)             // onDrop, which starts handleUpload
    | ExtractionSucceeded(data: Draft)      // the POST answered
    | ExtractionFailed                      // the POST threw
    | Confirm(now: string)                  // a click on the confirm button: handleConfirm calls addDoc
    | WriteSettled(k: nat, ok: bool)        // the k-th pending addDoc settles; ok is Firestore's answer
    | Discard                               // the discard button
    | EditVendor(vendor: string)            // typing in the vendor field

  /** The effect on `invoiceData?.items`: when the draft has items, its
      total becomes their sum, added left to right from 0. */
  function Recompute(d: Draft): (r: Draft)
    ensures r.vendor == d.vendor && r.items == d.items
    ensures r.items.Some? ==> r.totalAmount == Some(ItemsTotal(r.items.value))
    ensures r.items.None? ==> r.totalAmount == d.totalAmount
  {
    if d.items.Some? then d.(totalAmount := Some(ItemsTotal(d.items.value))) else d
  }

  /** Every field handed to `addDoc` is defined. The default Firestore
      instance rejects a document with an undefined field. */
  predicate Complete(d: Draft) {
    d.items.Some? && d.totalAmount.Some?
  }

  /** The document a write with defined fields stores. */
  function RecordOf(w: PendingWrite): (r: SavedRecord)
    requires Complete(w.draft)
    ensures Some(r.items) == w.draft.items && Some(r.totalAmount) == w.draft.totalAmount
    ensures r.vendor == w.draft.vendor && r.date == w.date
  {
    SavedRecord(w.draft.vendor, w.draft.items.value, w.draft.totalAmount.value, w.date)
  }

  /** The pending writes without the k-th. */
  function Without(ws: seq<PendingWrite>, k: nat): (r: seq<PendingWrite>)
    requires k < |ws|
    ensures |r| == |ws| - 1
    ensures forall i :: 0 <= i < k ==> r[i] == ws[i]
    ensures forall i :: k <= i < |r| ==> r[i] == ws[i + 1]
  {
    ws[..k] + ws[k + 1..]
  }

  function Step(s: State, e: Event): State
  {
    match e
    case OpenUploader => s.(showUploader := true)
    case CloseUploader => s.(showUploader := false)
    case Drop(accepted) =>
      s.(file := if |accepted| > 0 then Some(accepted[0]) else None, processing := true)
    case ExtractionSucceeded(data) => s.(draft := Some(Recompute(data)), processing := false)
    case ExtractionFailed => s.(processing := false)
    case Confirm(now) =>
      if s.draft.None? then s else s.(writes := s.writes + [PendingWrite(s.draft.value, now)])
    case WriteSettled(k, ok) =>
      if k >= |s.writes| then s
      else if ok && Complete(s.writes[k].draft) then
        s.(writes := Without(s.writes, k), saved := s.saved + [RecordOf(s.writes[k])],
           file := None, draft := None, showUploader := false)
      else s.(writes := Without(s.writes, k))
    case Discard => s.(file := None, draft := None, showUploader := false)
    case EditVendor(v) =>
      s.(draft := Some(if s.draft.Some? then s.draft.value.(vendor := v) else Draft(v, None, None)))
  }

  function Run(s: State, events: seq<Event>): State
  {
    if |events| == 0 then s else Step(Run(s, events[..|events| - 1]), events[|events| - 1])
  }

  // ---------------------------------------------------------------------
  // The draft total
  // ---------------------------------------------------------------------

  /** A draft with items carries their sum as its total. */
  predicate TotalMatchesItems(s: State) {
    s.draft.Some? && s.draft.value.items.Some? ==>
      s.draft.value.totalAmount == Some(ItemsTotal(s.draft.value.items.value))
  }

  /** Every event keeps the draft total equal to the sum of its items. */
  lemma StepKeepsTotal(s: State, e: Event)
    requires TotalMatchesItems(s)
    ensures TotalMatchesItems(Step(s, e))
  {
  }

  /** From the initial state, every reachable draft's total is its items' sum. */
  lemma {:induction false} RunKeepsTotal(events: seq<Event>)
    ensures TotalMatchesItems(Run(Initial, events))
  {
    if |events| > 0 {
      RunKeepsTotal(events[..|events| - 1]);
      StepKeepsTotal(Run(Initial, events[..|events| - 1]), events[|events| - 1]);
    }
  }

  // ---------------------------------------------------------------------
  // Transitions
  // ---------------------------------------------------------------------

  /** Dropping files makes the first accepted one the current file (none if
      nothing was accepted) and starts the extraction; the rest is kept. */
  lemma DropStartsExtraction(s: State, accepted: seq<File>)
    ensures var r := Step(s, Drop(accepted));
      && r.processing
      && (|accepted| > 0 ==> r.file == Some(accepted[0]))
      && (|accepted| == 0 ==> r.file.None?)
      && r.draft == s.draft && r.showUploader == s.showUploader
      && r.writes == s.writes && r.saved == s.saved
  {
  }

  /** Extraction always ends with processing off. A failure changes nothing
      else; a success makes the answer the draft, with its total recomputed
      when it has items. */
  lemma ExtractionEnds(s: State, data: Draft)
    ensures Step(s, ExtractionFailed) == s.(processing := false)
    ensures var r := Step(s, ExtractionSucceeded(data));
      && !r.processing && r.draft.Some?
      && r.draft.value.vendor == data.vendor && r.draft.value.items == data.items
      && (data.items.None? ==> r.draft.value.totalAmount == data.totalAmount)
      && r.file == s.file && r.showUploader == s.showUploader
      && r.writes == s.writes && r.saved == s.saved
  {
  }

  /** A click without a draft does nothing. A click with a draft starts one
      write of the draft as it is now and changes nothing else: the editor
      stays open and the button stays enabled while the write is pending. */
  lemma ConfirmStartsWrite(s: State, now: string)
    ensures s.draft.None? ==> Step(s, Confirm(now)) == s
    ensures s.draft.Some? ==>
      && Step(s, Confirm(now)).writes == s.writes + [PendingWrite(s.draft.value, now)]
      && Step(s, Confirm(now)).(writes := s.writes) == s
  {
  }

  /** A write that Firestore accepts, of a draft whose fields are all
      defined, appends exactly one record, holding the vendor, items and
      total of the draft as it was when clicked and the time of the click.
      It then clears the file and the draft, whatever they are by now, and
      closes the uploader. */
  lemma WriteAccepted(s: State, k: nat)
    requires k < |s.writes| && Complete(s.writes[k].draft)
    ensures var r := Step(s, WriteSettled(k, true));
      && |r.saved| == |s.saved| + 1 && r.saved[..|s.saved|] == s.saved
      && r.saved[|s.saved|].vendor == s.writes[k].draft.vendor
      && Some(r.saved[|s.saved|].items) == s.writes[k].draft.items
      && Some(r.saved[|s.saved|].totalAmount) == s.writes[k].draft.totalAmount
      && r.saved[|s.saved|].date == s.writes[k].date
      && r.writes == Without(s.writes, k)
      && r.file.None? && r.draft.None? && !r.showUploader
  {
    var r := Step(s, WriteSettled(k, true));
    assert r.saved[..|s.saved|] == s.saved;
  }

  /** A write that fails, or whose draft lacks items or total_amount,
      only leaves the list of pending writes: the draft, the file and the
      records stay as they were. */
  lemma WriteRejected(s: State, k: nat, accepted: bool)
    requires k < |s.writes| && (!accepted || !Complete(s.writes[k].draft))
    ensures Step(s, WriteSettled(k, accepted)) == s.(writes := Without(s.writes, k))
  {
  }

  /** Discarding clears the file and the draft, closes the uploader and
      writes nothing; writes already started still settle. */
  lemma DiscardClears(s: State)
    ensures var r := Step(s, Discard);
      r.file.None? && r.draft.None? && !r.showUploader && r.writes == s.writes && r.saved == s.saved
  {
  }

  /** Editing the vendor changes the draft's vendor and nothing else. */
  lemma EditVendorOnly(s: State, v: string)
    requires s.draft.Some?
    ensures var r := Step(s, EditVendor(v));
      && r.draft == Some(s.draft.value.(vendor := v))
      && r.draft.value.items == s.draft.value.items
      && r.draft.value.totalAmount == s.draft.value.totalAmount
      && r.file == s.file && r.processing == s.processing
      && r.showUploader == s.showUploader && r.writes == s.writes && r.saved == s.saved
  {
  }

  function ConfirmCount(events: seq<Event>): nat
  {
    if |events| == 0 then 0
    else ConfirmCount(events[..|events| - 1]) + (if events[|events| - 1].Confirm? then 1 else 0)
  }

  /** Records are only appended, and each one uses up a pending write that
      a click started: over any run, the records plus the pending writes
      grow by at most the number of clicks. */
  lemma {:induction false} RunOnlyAppends(s: State, events: seq<Event>)
    ensures |Run(s, events).saved| >= |s.saved|
    ensures Run(s, events).saved[..|s.saved|] == s.saved
    ensures |Run(s, events).saved| + |Run(s, events).writes| <= |s.saved| + |s.writes| + ConfirmCount(events)
  {
    if |events| > 0 {
      var n := |events| - 1;
      RunOnlyAppends(s, events[..n]);
      var before := Run(s, events[..n]);
      var after := Step(before, events[n]);
      assert after.saved[..|before.saved|] == before.saved;
      assert after.saved[..|s.saved|] == before.saved[..|s.saved|];
    }
  }

  /** From the initial state no more records are written than there were
      clicks on the confirm button. */
  lemma RunSavesAtMostClicks(events: seq<Event>)
    ensures |Run(Initial, events).saved| <= ConfirmCount(events)
  {
    RunOnlyAppends(Initial, events);
  }

  /** Two clicks before the first write settles start two writes of the
      same draft, and both are stored: the invoice is saved twice. */
  lemma DoubleClickSavesTwice(s: State, t1: string, t2: string)
    requires s.draft.Some? && Complete(s.draft.value) && s.writes == []
    ensures var r := Run(s, [Confirm(t1), Confirm(t2), WriteSettled(0, true), WriteSettled(0, true)]);
      r.saved == s.saved + [RecordOf(PendingWrite(s.draft.value, t1)), RecordOf(PendingWrite(s.draft.value, t2))]
  {
    var d := s.draft.value;
    var es := [Confirm(t1), Confirm(t2), WriteSettled(0, true), WriteSettled(0, true)];
    var s1 := Step(s, Confirm(t1));
    var s2 := Step(s1, Confirm(t2));
    assert s2.writes == [PendingWrite(d, t1), PendingWrite(d, t2)];
    var s3 := Step(s2, WriteSettled(0, true));
    assert s3.writes == [PendingWrite(d, t2)];
    assert es[..1][..0] == [] && Run(s, es[..1]) == s1;
    assert es[..2][..1] == es[..1] && Run(s, es[..2]) == s2;
    assert es[..3][..2] == es[..2] && Run(s, es[..3]) == s3;
  }

  // ---------------------------------------------------------------------
  // What is shown
  // ---------------------------------------------------------------------

  /** The faces of the component: the "+" button, the drop zone (with a
      spinner while processing), and the editor showing the vendor and the
      total's badge. The badge calls `total_amount.toFixed(2)`, so a draft
      without total_amount makes the render throw a TypeError. */
  datatype View = Landing | DropZone(busy: bool) | Editor(vendor: string, amount: real) | RenderFails

  function ViewOf(s: State): (v: View)
    ensures v.Landing? <==> !s.showUploader && s.draft.None?
    ensures v.Editor? <==> s.draft.Some? && s.draft.value.totalAmount.Some?
    ensures v.RenderFails? <==> s.draft.Some? && s.draft.value.totalAmount.None?
    ensures v.Editor? ==> v.vendor == s.draft.value.vendor && Some(v.amount) == s.draft.value.totalAmount
  {
    if !s.showUploader && s.draft.None? then Landing
    else if s.draft.None? then DropZone(s.processing)
    else if s.draft.value.totalAmount.None? then RenderFails
    else Editor(s.draft.value.vendor, s.draft.value.totalAmount.value)
  }

  /** After a discard, or once a write is stored, the "+" button is shown
      again. */
  lemma BackToLanding(s: State, k: nat)
    requires k < |s.writes| && Complete(s.writes[k].draft)
    ensures ViewOf(Step(s, Discard)) == Landing
    ensures ViewOf(Step(s, WriteSettled(k, true))) == Landing
  {
  }

  // ---------------------------------------------------------------------
  // The parse answer as a draft
  // ---------------------------------------------------------------------

  /** The 200 body of `/api/parse-invoice`, `{ vendor, total }`, read as
      `InvoiceData`: it has neither `total_amount` nor `items`. */
  function ResponseDraftAsWritten(data: ExtractedData): Draft
  {
    Draft(data.vendor, None, None)
  }

  /** The body with `total` carried into `total_amount`. */
  function ResponseDraft(data: ExtractedData): Draft
  {
    Draft(data.vendor, if data.total.Finite? then Some(data.total.value) else None, None)
  }

  /** As written, every successful extraction makes the draft a body
      without `total_amount`, so rendering the editor's badge throws; and a
      click on confirm, were it reached, could not store the draft either,
      since its items and total are undefined. */
  lemma EditorRenderFails(s: State, text: string, now: string, accepted: bool)
    ensures ViewOf(Step(s, ExtractionSucceeded(ResponseDraftAsWritten(Extract(text))))) == RenderFails
    ensures var r := Step(Step(s, ExtractionSucceeded(ResponseDraftAsWritten(Extract(text)))), Confirm(now));
      Step(r, WriteSettled(|s.writes|, accepted)).saved == s.saved
  {
    var r1 := Step(s, ExtractionSucceeded(ResponseDraftAsWritten(Extract(text))));
    var r := Step(r1, Confirm(now));
    assert r.writes[|s.writes|].draft == ResponseDraftAsWritten(Extract(text));
  }

  /** With the total carried over, the editor shows the extracted vendor and
      total, and the total survives the recompute effect. */
  lemma EditorShowsExtractedTotal(s: State, text: string)
    ensures Extract(text).total.Finite?
    ensures Extract(text).total.Finite? ==>
      ViewOf(Step(s, ExtractionSucceeded(ResponseDraft(Extract(text)))))
        == Editor(Extract(text).vendor, Extract(text).total.value)
  {
    TotalSpec(text);
  }
}
