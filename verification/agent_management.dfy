/** The admin's agent inventory: the create payload, the delete dialog and
    the badges of each row. */
module AgentManagement {

  import opened Json
  import Common
  import Text

  /** `{ ...agentData, url: agentData.url || agentData.agentUrl }`. */
  function CreatePayload(agentData: map<string, Json>): (payload: map<string, Json>)
    ensures payload.Keys == agentData.Keys + {"url"}
    ensures forall k :: k in agentData && k != "url" ==> payload[k] == agentData[k]
    ensures Truthy(Get(agentData, "url")) ==> payload["url"] == agentData["url"]
    ensures !Truthy(Get(agentData, "url")) ==> payload["url"] == Get(agentData, "agentUrl")
  {
    agentData["url" := Or(Get(agentData, "url"), Get(agentData, "agentUrl"))]
  }

  /** A form that already carries a usable `url` goes out unchanged. */
  lemma PayloadKeepsGivenUrl(agentData: map<string, Json>)
    requires Truthy(Get(agentData, "url"))
    ensures CreatePayload(agentData) == agentData
  {
    assert CreatePayload(agentData).Keys == agentData.Keys;
  }

  /** The created agent's name in the success message: `agentName`, then
      `name`, then 'New Agent'. */
  function SuccessName(created: map<string, Json>): (r: Json)
    ensures Truthy(Get(created, "agentName")) ==> r == created["agentName"]
    ensures !Truthy(Get(created, "agentName")) && Truthy(Get(created, "name")) ==> r == created["name"]
    ensures !Truthy(Get(created, "agentName")) && !Truthy(Get(created, "name")) ==> r == Str("New Agent")
  {
    Or(Or(Get(created, "agentName"), Get(created, "name")), Str("New Agent"))
  }

  /** The success name is never empty. */
  lemma SuccessNameIsShown(created: map<string, Json>)
    ensures Truthy(SuccessName(created))
  {
  }

  /** The delete dialog: whether it is open and which agent it is for. */
  datatype DeleteDialog = DeleteDialog(open: bool, pending: Common.Option<string>)

  /** `handleDeleteClick`: remembers the agent and opens the dialog. */
  function AskDelete(d: DeleteDialog, agentId: string): (r: DeleteDialog)
    ensures r.open && r.pending == Common.Some(agentId)
  {
    DeleteDialog(true, Common.Some(agentId))
  }

  /** `confirmDelete`: nothing without a pending agent; otherwise the agent
      is deleted, and on success the dialog closes and forgets it. Returns
      the dialog and the id sent for deletion. */
  function ConfirmDelete(d: DeleteDialog, outcome: Common.ApiOutcome): (r: (DeleteDialog, Common.Option<string>))
    ensures d.pending.None? ==> r == (d, Common.None)
    ensures d.pending.Some? ==> r.1 == d.pending
    ensures d.pending.Some? && outcome == Common.Succeeded ==> r.0 == DeleteDialog(false, Common.None)
    ensures d.pending.Some? && outcome == Common.Failed ==> r.0 == d
  {
    if d.pending.None? then (d, Common.None)
    else
      match outcome
      case Succeeded => (DeleteDialog(false, Common.None), d.pending)
      case Failed => (d, d.pending)
  }

  /** Asking for a deletion and confirming it deletes exactly that agent;
      a second confirmation after success deletes nothing more. */
  lemma DeleteOnlyWhatWasAsked(d: DeleteDialog, agentId: string)
    ensures ConfirmDelete(AskDelete(d, agentId), Common.Succeeded).1 == Common.Some(agentId)
    ensures ConfirmDelete(ConfirmDelete(AskDelete(d, agentId), Common.Succeeded).0, Common.Succeeded).1 == Common.None
  {
  }

  /** The status badge is highlighted for 'Live' and 'Active' only. */
  predicate StatusHighlighted(status: Common.Option<string>)
  {
    status == Common.Some("Live") || status == Common.Some("Active")
  }

  /** The review status shows unless it is missing, empty or 'Approved'. */
  predicate ReviewShown(reviewStatus: Common.Option<string>)
  {
    Common.Truthy(reviewStatus) && reviewStatus.value != "Approved"
  }

  /** The shortened id: its first eight characters. */
  function IdPreview(id: string): (r: string)
    ensures |r| <= 8 && Text.StartsWith(id, r)
    ensures |id| >= 8 ==> |r| == 8
    ensures |id| < 8 ==> r == id
  {
    Text.FirstChars(id, 8)
  }

  /** Badges compare exactly: a lower-case 'live' is not highlighted and a
      lower-case 'approved' is shown for review. */
  lemma BadgesAreCaseSensitive()
    ensures !StatusHighlighted(Common.Some("live"))
    ensures ReviewShown(Common.Some("approved")) && !ReviewShown(Common.Some("Approved"))
    ensures ReviewShown(Common.Some("Pending Review")) && !ReviewShown(Common.Some(""))
  {
    assert "approved"[0] != "Approved"[0];
  }

  /** Badges compare exact text, for every status: a status written in
      lower case is never highlighted, and a non-empty review status in
      lower case is always shown, since 'Approved' has a capital. */
  lemma LowerCaseBadges(s: string)
    ensures !StatusHighlighted(Common.Some(Text.ToLower(s)))
    ensures s != [] ==> ReviewShown(Common.Some(Text.ToLower(s)))
  {
    if s != [] {
      assert !Text.IsAsciiUpper(Text.ToLower(s)[0]);
    }
  }
}
