/** The admin list cell that edits a registration's payment status: a
    select over three statuses plus a confirm button that PATCHes the choice. */
module PaymentStatusCell {
  import opened Values
  import opened Registrations

  /** One entry of `OPTIONS`: label (`caption`), stored value and its colours. */
  datatype StatusOption = StatusOption(caption: string, value: string, color: string, bg: string, border: string)

  const Options: seq<StatusOption> := [
    StatusOption("未繳費 / 審核中", "pending", "#b45309", "#fffbeb", "#fde68a"),
    StatusOption("已繳費", "paid", "#166534", "#f0fdf4", "#bbf7d0"),
    StatusOption("繳費異常 / 退款", "failed", "#991b1b", "#fef2f2", "#fecaca")]

  /** The statuses the select offers, in option order. */
  datatype Status = Pending | Paid | Failed {
    function Index(): nat {
      match this
      case Pending => 0
      case Paid => 1
      case Failed => 2
    }

    function Value(): string {
      Options[Index()].value
    }
  }

  /** The select offers exactly the three statuses pending, paid and failed,
      each once, and each status names its own option. */
  lemma StatusDomain()
    ensures |Options| == 3
    ensures (set i | 0 <= i < |Options| :: Options[i].value) == {"pending", "paid", "failed"}
    ensures forall s: Status, t: Status :: s.Value() == t.Value() ==> s == t
    ensures Pending.Value() == "pending" && Paid.Value() == "paid" && Failed.Value() == "failed"
  {
    var values := set i | 0 <= i < |Options| :: Options[i].value;
    assert Options[0].value == "pending" && Options[1].value == "paid" && Options[2].value == "failed";
    assert values == {"pending", "paid", "failed"};
    assert Pending.Index() == 0 && Paid.Index() == 1 && Failed.Index() == 2;
  }

  /** `OPTIONS.find(o => o.value === value) ?? OPTIONS[0]`: the option whose
      colours the cell uses, the pending one when the value is unknown. */
  function Current(value: string): (o: StatusOption)
    ensures o in Options
    ensures (exists i :: 0 <= i < |Options| && Options[i].value == value) ==> o.value == value
    ensures (forall i :: 0 <= i < |Options| ==> Options[i].value != value) ==> o == Options[0]
  {
    if Options[0].value == value then Options[0]
    else if Options[1].value == value then Options[1]
    else if Options[2].value == value then Options[2]
    else Options[0]
  }

  /** The cell's state: the selected value, whether it is saved, and the value
      sent by the save request still in flight (`isPending`), if any. */
  datatype Cell = Cell(value: string, saved: bool, inFlight: Option<string>)

  /** `useState(cellData ?? 'pending')` and `useState(true)`. */
  function Init(cellData: Option<string>): (c: Cell)
    ensures c.saved && c.inFlight.None?
    ensures cellData.Some? ==> c.value == cellData.value
    ensures cellData.None? ==> c.value == Pending.Value()
  {
    Cell(cellData.GetOr("pending"), true, None)
  }

  /** `handleChange`: the chosen status becomes the value and the cell is dirty. */
  function Change(c: Cell, choice: Status): (r: Cell)
    ensures r.value == choice.Value() && !r.saved
    ensures r.inFlight == c.inFlight
  {
    Cell(choice.Value(), false, c.inFlight)
  }

  /** The confirm button shows only while unsaved changes exist. */
  predicate ButtonShown(c: Cell) {
    !c.saved
  }

  /** The button is disabled while a save is in flight. */
  predicate ButtonDisabled(c: Cell) {
    c.inFlight.Some?
  }

  /** The body of the PATCH request: only the payment status. */
  datatype Patch = Patch(paymentStatus: string)

  /** Clicking the confirm button. A hidden or disabled button does nothing;
      otherwise a PATCH carrying the current value is sent. */
  function Click(c: Cell): (r: (Cell, Option<Patch>))
    ensures r.1.Some? <==> ButtonShown(c) && !ButtonDisabled(c)
    ensures r.1.Some? ==> r.1.value.paymentStatus == c.value && r.0 == c.(inFlight := Some(c.value))
    ensures r.1.None? ==> r.0 == c
  {
    if ButtonShown(c) && !ButtonDisabled(c) then (c.(inFlight := Some(c.value)), Some(Patch(c.value)))
    else (c, None)
  }

  /** How a save request ends: an ok response, a non-ok response, or a thrown error. */
  datatype SaveOutcome = SaveOk | SaveRejected | NetworkError

  /** What the server does with the PATCH when it accepts it: the payment
      status changes, nothing else does. */
  function ApplyPatch(doc: Registration, p: Patch): (r: Registration)
    ensures r.paymentStatus == Str(p.paymentStatus)
    ensures r.(paymentStatus := doc.paymentStatus) == doc
  {
    doc.(paymentStatus := Str(p.paymentStatus))
  }

  /** The end of `handleSave` as written: an ok response marks the cell saved,
      anything else only alerts; the value is never touched. */
  function Settle(c: Cell, outcome: SaveOutcome): (r: Cell)
    ensures r.value == c.value && r.inFlight.None?
    ensures c.inFlight.Some? && outcome == SaveOk ==> r.saved
    ensures outcome != SaveOk || c.inFlight.None? ==> r.saved == c.saved
  {
    if c.inFlight.None? then c
    else if outcome == SaveOk then Cell(c.value, true, None)
    else Cell(c.value, c.saved, None)
  }

  /** The end of `handleSave` as intended: an ok response marks the cell saved
      only if the value has not changed since the request was sent. */
  function SettleChecked(c: Cell, outcome: SaveOutcome): (r: Cell)
    ensures r.value == c.value && r.inFlight.None?
    ensures c.inFlight.Some? && outcome == SaveOk ==> (r.saved <==> c.value == c.inFlight.value)
    ensures outcome != SaveOk || c.inFlight.None? ==> r.saved == c.saved
  {
    match c.inFlight
    case None => c
    case Some(sent) =>
      if outcome == SaveOk then Cell(c.value, c.value == sent, None)
      else Cell(c.value, c.saved, None)
  }

  /** The cell next to the registration the server stores. */
  datatype Screen = Screen(cell: Cell, doc: Registration)

  datatype Event = ChangeTo(choice: Status) | ClickSave | Finish(outcome: SaveOutcome)

  /** The `cellData` the list hands the cell: the stored status, absent when
      the field is null or missing. */
  function StoredStatus(doc: Registration): Option<string> {
    match doc.paymentStatus
    case Str(t) => Some(t)
    case _ => None
  }

  /** The status the cell would show when loaded from `doc`. */
  function StoredValue(doc: Registration): string {
    StoredStatus(doc).GetOr("pending")
  }

  /** The list page just loaded: the cell starts from the stored status. */
  function Loaded(doc: Registration): Screen {
    Screen(Init(StoredStatus(doc)), doc)
  }

  /** A cell that says "saved" shows what the server stores, and no save is in
      flight while it says so. */
  predicate Consistent(s: Screen) {
    && (s.cell.saved ==> s.cell.value == StoredValue(s.doc))
    && (s.cell.inFlight.Some? ==> !s.cell.saved)
  }

  /** The server's registration after a request ends: an accepted request has
      applied the PATCH carrying the value sent. */
  function StoredAfter(s: Screen, outcome: SaveOutcome): Registration {
    if s.cell.inFlight.Some? && outcome == SaveOk then ApplyPatch(s.doc, Patch(s.cell.inFlight.value))
    else s.doc
  }

  /** One event, with `Settle` as written. */
  function Step(s: Screen, e: Event): Screen {
    match e
    case ChangeTo(choice) => s.(cell := Change(s.cell, choice))
    case ClickSave => s.(cell := Click(s.cell).0)
    case Finish(outcome) => Screen(Settle(s.cell, outcome), StoredAfter(s, outcome))
  }

  /** One event, with `SettleChecked`. */
  function StepChecked(s: Screen, e: Event): Screen {
    match e
    case ChangeTo(choice) => s.(cell := Change(s.cell, choice))
    case ClickSave => s.(cell := Click(s.cell).0)
    case Finish(outcome) => Screen(SettleChecked(s.cell, outcome), StoredAfter(s, outcome))
  }

  /** Whatever happens on the screen, the server changes at most the payment
      status of the registration, and only to the value a request carried. */
  lemma StepTouchesOnlyStatus(s: Screen, e: Event)
    ensures Step(s, e).doc.(paymentStatus := s.doc.paymentStatus) == s.doc
    ensures Step(s, e).doc != s.doc ==>
              s.cell.inFlight.Some? && Step(s, e).doc.paymentStatus == Str(s.cell.inFlight.value)
  {
  }

  /** A freshly loaded cell is consistent with its stored status. */
  lemma InitConsistent(doc: Registration)
    ensures Consistent(Loaded(doc))
  {
  }

  /** With the checked settle, every event keeps the cell consistent. */
  lemma StepCheckedKeepsConsistent(s: Screen, e: Event)
    requires Consistent(s)
    ensures Consistent(StepChecked(s, e))
  {
    match e
    case ChangeTo(choice) =>
    case ClickSave =>
    case Finish(outcome) =>
      if s.cell.inFlight.Some? && outcome == SaveOk {
        assert StoredValue(StoredAfter(s, outcome)) == s.cell.inFlight.value;
      }
  }

  /** As written, events keep the cell consistent as long as the value is not
      changed while a save is in flight. */
  lemma StepKeepsConsistentWithoutRace(s: Screen, e: Event)
    requires Consistent(s)
    requires e.Finish? && s.cell.inFlight.Some? ==> s.cell.value == s.cell.inFlight.value
    ensures Consistent(Step(s, e))
  {
    match e
    case ChangeTo(choice) =>
    case ClickSave =>
    case Finish(outcome) =>
      if s.cell.inFlight.Some? && outcome == SaveOk {
        assert StoredValue(StoredAfter(s, outcome)) == s.cell.inFlight.value;
      }
  }

  /** As written: choose "paid", confirm, switch to "failed" while the request
      is in flight, and let it succeed. The cell then says saved and shows
      "failed" while the server stores "paid". */
  lemma StaleSaveMarkedSaved(doc: Registration)
    ensures var s0 := Loaded(doc);
            var s1 := Step(s0, ChangeTo(Paid));
            var s2 := Step(s1, ClickSave);
            var s3 := Step(s2, ChangeTo(Failed));
            var s4 := Step(s3, Finish(SaveOk));
            && Consistent(s0)
            && s4.cell.saved && s4.cell.value == "failed"
            && s4.doc == doc.(paymentStatus := Str("paid"))
            && !Consistent(s4)
  {
  }

  /** The same events with the checked settle leave the change visible as unsaved. */
  lemma StaleSaveStaysUnsaved(doc: Registration)
    ensures var s0 := Loaded(doc);
            var s1 := StepChecked(s0, ChangeTo(Paid));
            var s2 := StepChecked(s1, ClickSave);
            var s3 := StepChecked(s2, ChangeTo(Failed));
            var s4 := StepChecked(s3, Finish(SaveOk));
            && !s4.cell.saved && s4.cell.value == "failed"
            && s4.doc == doc.(paymentStatus := Str("paid"))
            && ButtonShown(s4.cell)
  {
  }
}
