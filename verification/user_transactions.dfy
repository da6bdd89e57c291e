/** The user's own transaction list: loading the response and the display
    fallbacks of each row and of the detail view. */
module UserTransactions {

  import opened Common
  import opened Text
  import Json
  import TransactionHistory
  import LiveCall

  /** `Array.isArray(data) ? data : []`, and `[]` when the request throws
      (`None`). */
  function LoadTransactions(response: Option<Json.Json>): (list: seq<Json.Json>)
    ensures response.Some? && response.value.Arr? ==> list == response.value.items
    ensures !(response.Some? && response.value.Arr?) ==> list == []
  {
    match response
    case Some(Arr(items)) => items
    case _ => []
  }

  /** A transaction as the list shows it; `agentName` is the populated
      `agentId?.agentName`. */
  datatype Transaction = Transaction(id: string, transactionId: Option<string>,
                                     agentName: Option<string>, plan: Option<string>, status: string)

  /** The status is shown as success only for exactly 'Success'; anything
      else, including other letter cases, shows as pending. */
  predicate ShowsSuccess(t: Transaction)
  {
    t.status == "Success"
  }

  function AppName(t: Transaction): (r: string)
    ensures Truthy(t.agentName) ==> r == t.agentName.value
    ensures !Truthy(t.agentName) ==> r == "Unknown App"
  {
    OrElse(t.agentName, "Unknown App")
  }

  /** The plan in the list, 'N/A' when there is none. */
  function PlanInList(t: Transaction): (r: string)
    ensures Truthy(t.plan) ==> r == t.plan.value
    ensures !Truthy(t.plan) ==> r == "N/A"
  {
    OrElse(t.plan, "N/A")
  }

  /** The plan in the detail view, with the translated word for "plan"
      when there is none. */
  function PlanInDetail(t: Transaction, translatedPlan: string): (r: string)
    ensures Truthy(t.plan) ==> r == t.plan.value
    ensures !Truthy(t.plan) ==> r == translatedPlan
  {
    OrElse(t.plan, translatedPlan)
  }

  /** The id in the detail view: the payment's transaction id, or the last
      12 characters of the record id in capitals. */
  function DetailId(t: Transaction): (r: string)
    ensures r != [] && r[0] == '#'
    ensures Truthy(t.transactionId) ==> r[1..] == t.transactionId.value
    ensures !Truthy(t.transactionId) ==> |r| == 1 + (if |t.id| < 12 then |t.id| else 12)
    ensures !Truthy(t.transactionId) ==>
      r[1..] == ToUpper(t.id[|t.id| - (|r| - 1)..])
  {
    "#" + if Truthy(t.transactionId) then t.transactionId.value else ToUpper(LastChars(t.id, 12))
  }

  /** Without a transaction id, the user sees the same id as the admin's
      detail view. */
  lemma DetailIdMatchesAdminView(t: Transaction)
    requires !Truthy(t.transactionId)
    ensures DetailId(t) == TransactionHistory.DetailId(t.id)
  {
  }

  /** The date locale. */
  function DateLocale(language: string): (locale: string)
    ensures locale == "hi-IN" <==> language == "Hindi"
    ensures locale != "hi-IN" ==> locale == "en-IN"
  {
    if language == "Hindi" then "hi-IN" else "en-IN"
  }

  /** The user view matches 'Success' exactly, where the admin view ignores
      case: a status 'success' is pending here and SUCCESS there. */
  lemma StatusCaseDiffersFromAdminView(t: Transaction)
    requires t.status == "success"
    ensures !ShowsSuccess(t)
    ensures TransactionHistory.StatusLabel(Some(t.status)) == "SUCCESS"
  {
    assert ToLower("success") == "success";
  }

  /** An array the page has loaded, handed back as the response, loads as
      the same list: loading keeps exactly what it accepts. */
  lemma LoadTransactionsStable(response: Option<Json.Json>)
    ensures LoadTransactions(Some(Json.Arr(LoadTransactions(response)))) == LoadTransactions(response)
  {
  }

  /** Dates use the Hindi locale exactly when the live call speaks Hindi:
      the two pages choose by the same language name. */
  lemma HindiDatesMatchHindiVoice(language: string)
    ensures DateLocale(language) == "hi-IN" <==> LiveCall.SpeechLanguage(language) == "hi-IN"
  {
    var t := LiveCall.SpeechLanguages;
    if language != "Hindi" {
      match Lookup(t, language)
      case None =>
      case Some(v) =>
        var i :| 0 <= i < |t| && t[i] == (language, v);
        assert i != 0;
        assert i in {1, 2, 3, 4, 5};
    }
  }
}
