/**
 * The incident-report form: the user picks an event type, may type a
 * description, and submits. Submitting without a type is refused with an
 * error notice and leaves the form as it was; otherwise a success notice is
 * shown and the form is cleared. Notices are returned as values.
 */
module ReportForm {
  import Keys

  datatype ReportType = ReportType(id: string, icon: string, caption: string)

  datatype Form = Form(selectedType: string, description: string)

  datatype Notice =
    | ErrorNotice(message: string)
    | SuccessNotice(message: string, detail: string)

  /** What the user can do to the form. */
  datatype Event = Select(typeId: string) | Edit(text: string) | Submit

  const NoTypeMessage: string := "Por favor selecciona un tipo de evento"
  const SentMessage: string := "Reporte enviado exitosamente"
  const SentDetail: string := "Tu reporte ayuda a mantener segura a la comunidad"

  /** The six selectable event types, in display order. */
  const ReportTypes: seq<ReportType> := [
    ReportType("flooding", "🌊", "Inundación"),
    ReportType("landslide", "⛰️", "Deslizamiento"),
    ReportType("rain", "🌧️", "Lluvia fuerte"),
    ReportType("river", "🏞️", "Río crecido"),
    ReportType("damage", "🏚️", "Daño estructural"),
    ReportType("other", "📝", "Otro")
  ]

  predicate IsTypeId(id: string) {
    exists i :: 0 <= i < |ReportTypes| && ReportTypes[i].id == id
  }

  lemma ReportTypesDistinct()
    ensures |ReportTypes| == 6
    ensures Keys.Distinct(ReportTypes, (t: ReportType) => t.id)
    ensures forall i :: 0 <= i < |ReportTypes| ==> ReportTypes[i].id != ""
  {
    forall i, j | 0 <= i < |ReportTypes| && 0 <= j < |ReportTypes| && i != j
      ensures ReportTypes[i].id != ReportTypes[j].id
    {
    }
  }

  /** The form as the view mounts. */
  const Empty: Form := Form("", "")

  /** The send button is enabled exactly when a type is chosen. */
  predicate SubmitEnabled(f: Form) {
    f.selectedType != ""
  }

  /** `handleSubmit`: the form afterwards and the notice shown. */
  function HandleSubmit(f: Form): (res: (Form, Notice))
    ensures res.1.ErrorNotice? <==> !SubmitEnabled(f)
    ensures res.1.ErrorNotice? ==> res.0 == f && res.1.message == NoTypeMessage
    ensures res.1.SuccessNotice? ==>
      res.0 == Empty && res.1 == SuccessNotice(SentMessage, SentDetail)
  {
    if f.selectedType == "" then (f, ErrorNotice(NoTypeMessage))
    else (Form("", ""), SuccessNotice(SentMessage, SentDetail))
  }

  /**
   * One user event: the form afterwards, and the notice if one was shown. A
   * click on the send button reaches `handleSubmit` only while the button is
   * enabled; on the disabled button it does nothing.
   */
  function Step(f: Form, e: Event): (res: (Form, seq<Notice>))
    ensures e.Select? ==> res.0 == f.(selectedType := e.typeId) && res.1 == []
    ensures e.Edit? ==> res.0 == f.(description := e.text) && res.1 == []
    ensures e.Submit? ==> |res.1| == (if SubmitEnabled(f) then 1 else 0)
    ensures e.Submit? && !SubmitEnabled(f) ==> res.0 == f
    ensures e.Submit? && SubmitEnabled(f) ==>
      res.0 == Empty && res.1 == [SuccessNotice(SentMessage, SentDetail)]
  {
    match e
    case Select(id) => (f.(selectedType := id), [])
    case Edit(text) => (f.(description := text), [])
    case Submit =>
      if SubmitEnabled(f) then var (f', n) := HandleSubmit(f); (f', [n])
      else (f, [])
  }

  /** A session: the events in order, the final form and every notice shown. */
  function Run(f: Form, es: seq<Event>): (res: (Form, seq<Notice>))
    ensures |res.1| <= SubmitCount(es)
    ensures forall i :: 0 <= i < |res.1| ==> res.1[i] == SuccessNotice(SentMessage, SentDetail)
    decreases |es|
  {
    if |es| == 0 then (f, [])
    else
      var (f1, n1) := Step(f, es[0]);
      var (f2, n2) := Run(f1, es[1..]);
      (f2, n1 + n2)
  }

  /**
   * A successful submit is followed by a refused one if repeated at once: the
   * button is disabled again, so a second click does nothing, and the handler
   * itself would answer with the error notice.
   */
  lemma ResubmitRefused(f: Form)
    requires SubmitEnabled(f)
    ensures var f1 := HandleSubmit(f).0;
      && !SubmitEnabled(f1)
      && Step(f1, Submit) == (f1, [])
      && HandleSubmit(f1).1 == ErrorNotice(NoTypeMessage)
      && HandleSubmit(f1).0 == Empty
  {
  }

  /** The fresh form has the send button disabled, so clicking it does nothing. */
  lemma FreshFormSubmitDisabled()
    ensures Empty.selectedType == "" && Empty.description == ""
    ensures !SubmitEnabled(Empty)
    ensures Step(Empty, Submit) == (Empty, [])
  {
  }

  /** The description never decides whether a submit is accepted. */
  lemma DescriptionIrrelevant(f: Form, text: string)
    ensures HandleSubmit(f).1.SuccessNotice? <==> HandleSubmit(f.(description := text)).1.SuccessNotice?
  {
  }

  /** The form's invariant when types are chosen only from the list. */
  predicate Sane(f: Form) {
    f.selectedType == "" || IsTypeId(f.selectedType)
  }

  predicate SelectsListed(es: seq<Event>) {
    forall i :: 0 <= i < |es| ==> (es[i].Select? ==> IsTypeId(es[i].typeId))
  }

  /**
   * Starting from a sane form, a session whose selections all come from the
   * type buttons keeps the form sane.
   */
  lemma {:induction false} RunKeepsSane(f: Form, es: seq<Event>)
    requires Sane(f) && SelectsListed(es)
    ensures Sane(Run(f, es).0)
    decreases |es|
  {
    if |es| > 0 {
      var f1 := Step(f, es[0]).0;
      assert Sane(f1);
      assert SelectsListed(es[1..]) by {
        forall i | 0 <= i < |es[1..]| ensures es[1..][i].Select? ==> IsTypeId(es[1..][i].typeId) {
          assert es[1..][i] == es[i + 1];
        }
      }
      RunKeepsSane(f1, es[1..]);
    }
  }

  /** How many submits a session holds. */
  function SubmitCount(es: seq<Event>): (n: nat)
    ensures n <= |es|
  {
    if |es| == 0 then 0 else (if es[0].Submit? then 1 else 0) + SubmitCount(es[1..])
  }

  /** How many submits of a session find a type selected, so the button enabled. */
  function EnabledSubmits(f: Form, es: seq<Event>): (n: nat)
    ensures n <= SubmitCount(es)
    decreases |es|
  {
    if |es| == 0 then 0
    else (if es[0].Submit? && SubmitEnabled(f) then 1 else 0) + EnabledSubmits(Step(f, es[0]).0, es[1..])
  }

  /** Every submit on the enabled button yields exactly one notice, and nothing else does. */
  lemma {:induction false} NoticesPerSubmit(f: Form, es: seq<Event>)
    ensures |Run(f, es).1| == EnabledSubmits(f, es)
    decreases |es|
  {
    if |es| > 0 {
      NoticesPerSubmit(Step(f, es[0]).0, es[1..]);
    }
  }

  /** Through the buttons, the error notice is never shown. */
  lemma NoErrorNotices(f: Form, es: seq<Event>)
    ensures forall n :: n in Run(f, es).1 ==> !n.ErrorNotice?
  {
  }
}
