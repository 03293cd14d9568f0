/**
 * The admin form (components/AdminPanel.tsx): the form state, the position
 * picker that fills in the default points, the points box, and the submit
 * handler that writes the record through the data service and then clears the
 * free-text fields.
 */
module AdminPanel {
  import opened Wrappers
  import opened Types
  import opened JsString
  import opened DataService
  import opened Leaderboard

  datatype FormData = FormData(
    studentName: string,
    regNo: string,
    group: GroupColor,
    eventName: string,
    eventType: EventType,
    position: Position,
    points: int)

  /** The form when the panel opens. */
  const INITIAL_FORM: FormData := FormData("", "", Green, "", Athletics, First, 5)

  /** The initial points are the default points of the initial position. */
  lemma InitialFormConsistent()
    ensures INITIAL_FORM.points == PointsMap(INITIAL_FORM.position)
    ensures INITIAL_FORM.group == Green && INITIAL_FORM.eventType == Athletics && INITIAL_FORM.position == First
  {
  }

  /** `parseInt(text) || 0`: the parsed number, or 0 when the text holds none. */
  function PointsFromInput(text: string): int {
    match ParseInt(text)
    case Some(n) => n
    case None => 0
  }

  /** The points box shows `String(points)`; reading that text back gives the same points. */
  lemma PointsInputRoundTrip(points: int)
    ensures PointsFromInput(IntString(points)) == points
  {
    ParseIntString(points);
  }

  /** A cleared points box stores 0. */
  lemma PointsInputCleared()
    ensures PointsFromInput("") == 0
  {
  }

  /** A typed value may leave the points out of step with the position's default. */
  lemma PointsInputOverridesDefault(form: FormData)
    ensures exists text :: PointsFromInput(text) != PointsMap(form.position)
  {
    PointsInputRoundTrip(PointsMap(form.position) + 1);
  }

  /** `{ ...formData, timestamp }`: the record handed to `addResult`. */
  function Submitted(form: FormData, timestamp: int): NewResult {
    NewResult(form.studentName, form.regNo, GroupName(form.group), form.eventName,
              EventTypeName(form.eventType), PositionName(form.position), form.points, timestamp)
  }

  /** The form after a successful add: the three text fields emptied, the rest kept. */
  function ClearedAfterSubmit(form: FormData): FormData {
    form.(studentName := "", regNo := "", eventName := "")
  }

  /** A submitted record is stored under its group's name and counts for that group only. */
  lemma SubmittedRecordScores(form: FormData, timestamp: int, id: string, current: seq<Result>, g: GroupColor)
    ensures ParseGroup(Submitted(form, timestamp).group) == Some(form.group)
    ensures GroupTotal(Prepended(current, Submitted(form, timestamp), id), g)
         == GroupTotal(current, g) + (if g == form.group then form.points else 0)
  {
    var r := WithId(Submitted(form, timestamp), id);
    GroupTotalConcat([r], current, g);
    assert [r][..0] == [];
    GroupNameInjective(g, form.group);
  }

  class AdminForm {
    var formData: FormData

    constructor ()
      ensures formData == INITIAL_FORM
    {
      formData := INITIAL_FORM;
    }

    /** `handlePositionChange`: the position and its default points; nothing else changes. */
    method HandlePositionChange(pos: Position)
      modifies this
      ensures formData == old(formData).(position := pos, points := PointsMap(pos))
      ensures formData.points == PointsMap(formData.position)
    {
      formData := formData.(position := pos, points := PointsMap(pos));
    }

    /** The points box's change handler. */
    method SetPointsInput(text: string)
      modifies this
      ensures formData == old(formData).(points := PointsFromInput(text))
    {
      formData := formData.(points := PointsFromInput(text));
    }

    method SetStudentName(value: string)
      modifies this
      ensures formData == old(formData).(studentName := value)
    {
      formData := formData.(studentName := value);
    }

    method SetRegNo(value: string)
      modifies this
      ensures formData == old(formData).(regNo := value)
    {
      formData := formData.(regNo := value);
    }

    method SetGroup(g: GroupColor)
      modifies this
      ensures formData == old(formData).(group := g)
    {
      formData := formData.(group := g);
    }

    method SetEventType(e: EventType)
      modifies this
      ensures formData == old(formData).(eventType := e)
    {
      formData := formData.(eventType := e);
    }

    method SetEventName(value: string)
      modifies this
      ensures formData == old(formData).(eventName := value)
    {
      formData := formData.(eventName := value);
    }

    /**
     * `handleSubmit` against the local store: the current fields plus the
     * timestamp are added (the store's clock reads `now`); on success the text
     * fields are cleared, on failure the form is left as it was.
     */
    method HandleSubmit(store: LocalStore, timestamp: int, now: nat, accepted: bool) returns (ok: bool)
      modifies this, store
      ensures ok == accepted
      ensures ok ==> store.resultsItem == Some(Prepended(old(store.LocalResults()),
                                                         Submitted(old(formData), timestamp), DecimalString(now)))
      ensures !ok ==> store.resultsItem == old(store.resultsItem)
      ensures store.authItem == old(store.authItem)
      ensures ok ==> formData == ClearedAfterSubmit(old(formData))
      ensures !ok ==> formData == old(formData)
    {
      ok := store.AddResult(Submitted(formData, timestamp), now, accepted);
      if ok {
        formData := formData.(studentName := "", regNo := "", eventName := "");
      }
    }

    /**
     * `handleDelete`: the record goes only if the user confirms the dialog and
     * storage takes the write; a failed write is not caught here.
     */
    method HandleDelete(store: LocalStore, id: string, confirmed: bool, accepted: bool)
      modifies store
      ensures confirmed && accepted ==> store.resultsItem == Some(WithoutId(old(store.LocalResults()), id))
      ensures !(confirmed && accepted) ==> store.resultsItem == old(store.resultsItem)
      ensures store.authItem == old(store.authItem)
    {
      if confirmed {
        var _ := store.DeleteResult(id, accepted);
      }
    }
  }

}
