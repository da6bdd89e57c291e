/** The notifications page: marking as read, deleting, and showing stored
    notification texts in the reader's language. */
module Notifications {

  import opened Common
  import opened Text
  import opened Sorting

  datatype Notification = Notification(id: string, content: string, isRead: bool, kind: string)

  /** The entry as it looks after `markAsRead(id)`. */
  function MarkedIfMatching(n: Notification, id: string): Notification
  {
    if n.id == id then n.(isRead := true) else n
  }

  /** `markAsRead(id)`: after a successful call every entry with that id is
      read; nothing else changes, and a failed call changes nothing. */
  function MarkAsRead(list: seq<Notification>, id: string, call: ApiOutcome): (r: seq<Notification>)
    ensures call == Failed ==> r == list
    ensures |r| == |list|
    ensures call == Succeeded ==> forall i :: 0 <= i < |list| ==>
      && r[i].id == list[i].id && r[i].content == list[i].content && r[i].kind == list[i].kind
      && r[i].isRead == (list[i].isRead || list[i].id == id)
  {
    if call == Failed then list
    else seq(|list|, i requires 0 <= i < |list| => MarkedIfMatching(list[i], id))
  }

  /** Marking the same notification twice is marking it once. */
  lemma MarkAsReadIdempotent(list: seq<Notification>, id: string)
    ensures MarkAsRead(MarkAsRead(list, id, Succeeded), id, Succeeded) == MarkAsRead(list, id, Succeeded)
  {
  }

  /** The test `n._id !== id`. */
  function OtherThan(id: string): Notification -> bool
  {
    (n: Notification) => n.id != id
  }

  /** `deleteNotification(id)`: after a successful call the entries with
      that id are gone and the others stay in order; a failed call changes
      nothing. */
  function DeleteNotification(list: seq<Notification>, id: string, call: ApiOutcome): (r: seq<Notification>)
    ensures call == Failed ==> r == list
    ensures call == Succeeded ==> forall i :: 0 <= i < |r| ==> r[i].id != id && r[i] in list
    ensures call == Succeeded ==> forall i :: 0 <= i < |list| && list[i].id != id ==> list[i] in r
    ensures call == Succeeded ==>
      forall n :: multiset(r)[n] == if n.id != id then multiset(list)[n] else 0
  {
    FilterCounts(list, OtherThan(id));
    if call == Failed then list else Filter(list, OtherThan(id))
  }

  /** Deletion keeps the order of the remaining entries and is idempotent. */
  lemma DeleteKeepsOrder(list: seq<Notification>, id: string)
    ensures IsSubsequence(DeleteNotification(list, id, Succeeded), list)
    ensures DeleteNotification(DeleteNotification(list, id, Succeeded), id, Succeeded)
         == DeleteNotification(list, id, Succeeded)
  {
    FilterIsSubsequence(list, OtherThan(id));
    FilterIdempotent(list, OtherThan(id));
  }

  /** Filtering entries that were marked gives the marked entries that were
      kept. */
  lemma {:induction false} FilterMarked(list: seq<Notification>, id: string)
    ensures Filter(MarkAsRead(list, id, Succeeded), OtherThan(id)) == Filter(list, OtherThan(id))
  {
    if list != [] {
      var m := MarkAsRead(list, id, Succeeded);
      assert m[1..] == MarkAsRead(list[1..], id, Succeeded);
      FilterMarked(list[1..], id);
    }
  }

  /** Marking a notification read and then deleting it is the same as
      deleting it. */
  lemma MarkThenDeleteIsDelete(list: seq<Notification>, id: string)
    ensures DeleteNotification(MarkAsRead(list, id, Succeeded), id, Succeeded)
         == DeleteNotification(list, id, Succeeded)
  {
    FilterMarked(list, id);
  }

  // ---------------------------------------------------------------------
  // Showing stored texts

  /** Texts stored by older versions of the backend and the translation key
      each now stands for. */
  const LegacyKeys: seq<(string, string)> := [
    ("New Subscriber", "notificationsPage.newSubscriber.title"),
    ("System Maintenance", "notificationsPage.systemMaintenance.title"),
    ("The system is currently in maintenance mode.", "notificationsPage.systemMaintenance.message"),
    ("System Restored", "notificationsPage.systemRestored.title"),
    ("Maintenance is complete. "
     + "System is fully operational.", "notificationsPage.systemRestored.message"),
    ("Critical Alert", "notificationsPage.criticalAlert.title"),
    ("Global Kill-Switch Activated. "
     + "All AI services are momentarily suspended.", "notificationsPage.criticalAlert.message"),
    ("Services Restored", "notificationsPage.servicesRestored.title"),
    ("Global Kill-Switch Deactivated. "
     + "All AI services are now active.", "notificationsPage.servicesRestored.message")
  ]

  const KeyPrefix := "notificationsPage."
  const SubscribedPrefix := "A user has subscribed to"
  const MessagePrefixKey := "notificationsPage.newSubscriber.messagePrefix"

  /** The subscription message as the backend writes it. */
  function SubscriberMessage(agent: string): string
  {
    SubscribedPrefix + " '" + agent + "'"
  }

  /** `s.replace(/^'|'$/g, '')`: one quote at each end, if there. */
  function StripQuotes(s: string): string
  {
    var t := if |s| > 0 && s[0] == '\'' then s[1..] else s;
    if |t| > 0 && t[|t| - 1] == '\'' then t[..|t| - 1] else t
  }

  /** `s.replace(/^\.|.$/g, '')` as written: a leading dot, and then the
      last character whatever it is, unless it ends a line. */
  function StripDotsAsWritten(s: string): string
  {
    var t := if |s| > 0 && s[0] == '.' then s[1..] else s;
    if |t| > 0 && !IsLineTerminator(t[|t| - 1]) then t[..|t| - 1] else t
  }

  /** `s.replace(/^\.|\.$/g, '')`: a leading dot and a trailing dot. */
  function StripDots(s: string): string
  {
    var t := if |s| > 0 && s[0] == '.' then s[1..] else s;
    if |t| > 0 && t[|t| - 1] == '.' then t[..|t| - 1] else t
  }

  /** The agent-name extraction up to the quote removal. */
  function QuotedAgentName(content: string): string
  {
    var s := ReplaceFirst(content, "New Subscriber:", "");
    var s := ReplaceFirst(s, "New Subscriber", "");
    var s := ReplaceFirst(s, SubscribedPrefix, "");
    StripQuotes(Trim(s))
  }

  /** The agent name as the page extracts it. */
  function AgentNameAsWritten(content: string): string
  {
    StripDotsAsWritten(QuotedAgentName(content))
  }

  /** The agent name with only dots removed at the ends. */
  function AgentName(content: string): string
  {
    StripDots(QuotedAgentName(content))
  }

  /** Removing the first occurrence of a leading pattern removes the
      leading copy. */
  lemma ReplaceLeading(p: string, rest: string)
    ensures ReplaceFirst(p + rest, p, "") == rest
  {
    var s := p + rest;
    assert OccursAt(s, p, 0);
    assert IndexOf(s, p) == Some(0);
    assert s[|p|..] == rest;
  }

  /** Quotes around a name come off, whatever the name. */
  lemma StripQuotesOfQuoted(agent: string)
    ensures StripQuotes("'" + agent + "'") == agent
  {
    var q := "'" + agent + "'";
    assert q[0] == '\'';
    assert q[1..] == agent + "'";
  }

  /** In a subscription message that does not mention "New Subscriber",
      everything but the quoted name is removed. */
  lemma QuotedAgentNameOfMessage(agent: string)
    requires !Contains(SubscriberMessage(agent), "New Subscriber")
    ensures QuotedAgentName(SubscriberMessage(agent)) == agent
  {
    var m := SubscriberMessage(agent);
    ExtensionNotContained(m, "New Subscriber", ":");
    assert "New Subscriber:" == "New Subscriber" + ":";
    var s1 := ReplaceFirst(m, "New Subscriber:", "");
    assert s1 == m;
    var s2 := ReplaceFirst(s1, "New Subscriber", "");
    assert s2 == m;
    var quoted := "'" + agent + "'";
    var rest := [' '] + quoted;
    assert m == SubscribedPrefix + rest;
    ReplaceLeading(SubscribedPrefix, rest);
    TrimLeadingBlank(quoted);
    StripQuotesOfQuoted(agent);
  }

  /** As written, the last character of every name is cut off: the pattern
      `.$` matches any final character, not only a dot. */
  lemma AgentNameLosesLastChar(agent: string)
    requires !Contains(SubscriberMessage(agent), "New Subscriber")
    requires agent != [] && agent[0] != '.' && !IsLineTerminator(agent[|agent| - 1])
    ensures AgentNameAsWritten(SubscriberMessage(agent)) == agent[..|agent| - 1]
  {
    QuotedAgentNameOfMessage(agent);
    StripDotsAsWrittenCutsLast(agent);
  }

  /** The as-written dot pattern removes the final character of a name that
      does not start with a dot and does not end a line. */
  lemma StripDotsAsWrittenCutsLast(s: string)
    requires s != [] && s[0] != '.' && !IsLineTerminator(s[|s| - 1])
    ensures StripDotsAsWritten(s) == s[..|s| - 1]
  {
  }

  /** "A user has subscribed to 'Manychats'" names the agent "Manychat". */
  lemma ManychatsBecomesManychat()
    ensures AgentNameAsWritten(SubscriberMessage("Manychats")) == "Manychat"
  {
    var m := SubscriberMessage("Manychats");
    assert 'N' !in m;
    MissingFirstCharNotContained(m, "New Subscriber");
    AgentNameLosesLastChar("Manychats");
  }

  /** With only dots stripped, a name that does not begin or end with a dot
      is recovered exactly. */
  lemma AgentNameRoundTrip(agent: string)
    requires !Contains(SubscriberMessage(agent), "New Subscriber")
    requires agent != [] ==> agent[0] != '.' && agent[|agent| - 1] != '.'
    ensures AgentName(SubscriberMessage(agent)) == agent
  {
    QuotedAgentNameOfMessage(agent);
  }

  /** The first of the text-building steps of `translateContent`, shared by
      both versions: `None` when the stored text or its legacy key has a
      real translation, which is then returned. */
  function DirectTranslation(content: string, t: string -> string): (r: Option<string>)
  {
    var key := OrElse(Lookup(LegacyKeys, content), content);
    var translated := t(key);
    if translated != key && !StartsWith(translated, KeyPrefix) then Some(translated) else None
  }

  /** `translateContent` as written. `t` is the translator, which returns
      its key when it has no translation; `None` content is a missing one. */
  function TranslateContentAsWritten(content: Option<string>, t: string -> string): (r: string)
    ensures !Truthy(content) ==> r == ""
    ensures Truthy(content) && DirectTranslation(content.value, t).Some? ==>
      r == DirectTranslation(content.value, t).value
    ensures Truthy(content) && DirectTranslation(content.value, t).None? &&
            Contains(content.value, SubscribedPrefix) && t(MessagePrefixKey) != MessagePrefixKey ==>
      r == t(MessagePrefixKey) + " '" + AgentNameAsWritten(content.value) + "'"
    ensures Truthy(content) && DirectTranslation(content.value, t).None? &&
            !(Contains(content.value, SubscribedPrefix) && t(MessagePrefixKey) != MessagePrefixKey) ==>
      r == content.value
  {
    if !Truthy(content) then ""
    else
      var c := content.value;
      match DirectTranslation(c, t)
      case Some(translated) => translated
      case None =>
        if Contains(c, SubscribedPrefix) && t(MessagePrefixKey) != MessagePrefixKey
        then t(MessagePrefixKey) + " '" + AgentNameAsWritten(c) + "'"
        else c
  }

  /** `translateContent` with the agent name extracted correctly. */
  function TranslateContent(content: Option<string>, t: string -> string): (r: string)
    ensures !Truthy(content) ==> r == ""
    ensures Truthy(content) && DirectTranslation(content.value, t).Some? ==>
      r == DirectTranslation(content.value, t).value
    ensures Truthy(content) && DirectTranslation(content.value, t).None? &&
            !(Contains(content.value, SubscribedPrefix) && t(MessagePrefixKey) != MessagePrefixKey) ==>
      r == content.value
    ensures Truthy(content) && DirectTranslation(content.value, t).None? &&
            Contains(content.value, SubscribedPrefix) && t(MessagePrefixKey) != MessagePrefixKey ==>
      r == t(MessagePrefixKey) + " '" + AgentName(content.value) + "'"
  {
    if !Truthy(content) then ""
    else
      var c := content.value;
      match DirectTranslation(c, t)
      case Some(translated) => translated
      case None =>
        if Contains(c, SubscribedPrefix) && t(MessagePrefixKey) != MessagePrefixKey
        then t(MessagePrefixKey) + " '" + AgentName(c) + "'"
        else c
  }

  /** A legacy text whose key has a translation shows that translation. */
  lemma LegacyTextTranslated(i: nat, t: string -> string)
    requires i < |LegacyKeys|
    requires t(LegacyKeys[i].1) != LegacyKeys[i].1 && !StartsWith(t(LegacyKeys[i].1), KeyPrefix)
    ensures TranslateContent(Some(LegacyKeys[i].0), t) == t(LegacyKeys[i].1)
  {
    var k := LegacyKeys;
    LegacyTextsDistinct();
    LookupDistinctKey(k, i);
    var c := k[i].0;
    assert Truthy(Some(c));
    assert OrElse(Lookup(k, c), c) == k[i].1;
    assert DirectTranslation(c, t) == Some(t(k[i].1));
  }

  /** No two legacy texts are the same: those that share a first letter
      differ in length. */
  lemma LegacyTextsDistinct()
    ensures forall a, b :: 0 <= a < b < |LegacyKeys| ==> LegacyKeys[a].0 != LegacyKeys[b].0
    ensures forall a :: 0 <= a < |LegacyKeys| ==> LegacyKeys[a].0 != [] && LegacyKeys[a].1 != []
  {
    var k := LegacyKeys;
    assert k[0].0[0] == 'N' && |k[0].0| == 14;
    assert k[1].0[0] == 'S' && |k[1].0| == 18;
    assert k[2].0[0] == 'T';
    assert k[3].0[0] == 'S' && |k[3].0| == 15;
    assert k[4].0[0] == 'M';
    assert k[5].0[0] == 'C';
    assert k[6].0[0] == 'G' && |k[6].0| == 72;
    assert k[7].0[0] == 'S' && |k[7].0| == 17;
    assert k[8].0[0] == 'G' && |k[8].0| == 63;
    forall a, b | 0 <= a < b < |k| ensures k[a].0 != k[b].0 {
      assert a in {0, 1, 2, 3, 4, 5, 6, 7} && b in {1, 2, 3, 4, 5, 6, 7, 8};
    }
  }

  /** The translation itself is shown only if it differs from its key and
      does not look like a key. */
  lemma KeyLikeTranslationsRejected(content: string, t: string -> string)
    requires DirectTranslation(content, t).Some?
    ensures var r := DirectTranslation(content, t).value;
      r != OrElse(Lookup(LegacyKeys, content), content) && !StartsWith(r, KeyPrefix)
  {
  }

  /** No subscription message is one of the legacy texts: they all start
      with a letter other than 'A'. */
  lemma SubscriberMessageNotLegacy(agent: string)
    ensures Lookup(LegacyKeys, SubscriberMessage(agent)).None?
  {
    var m := SubscriberMessage(agent);
    assert m[0] == 'A';
    var k := LegacyKeys;
    assert k[0].0[0] == 'N';
    assert k[1].0[0] == 'S';
    assert k[2].0[0] == 'T';
    assert k[3].0[0] == 'S';
    assert k[4].0[0] == 'M';
    assert k[5].0[0] == 'C';
    assert k[6].0[0] == 'G';
    assert k[7].0[0] == 'S';
    assert k[8].0[0] == 'G';
    forall j | 0 <= j < |k| ensures k[j].0 != m {
      assert j in {0, 1, 2, 3, 4, 5, 6, 7, 8};
    }
  }

  /** A subscription message the translator does not know is rebuilt from
      the translated sentence start and the agent's name in quotes, when
      that sentence start is translated; otherwise it is shown as stored. */
  lemma SubscriberMessageRebuilt(agent: string, t: string -> string)
    requires !Contains(SubscriberMessage(agent), "New Subscriber")
    requires agent != [] ==> agent[0] != '.' && agent[|agent| - 1] != '.'
    requires t(SubscriberMessage(agent)) == SubscriberMessage(agent)
    ensures t(MessagePrefixKey) != MessagePrefixKey ==>
      TranslateContent(Some(SubscriberMessage(agent)), t) == t(MessagePrefixKey) + " '" + agent + "'"
    ensures t(MessagePrefixKey) == MessagePrefixKey ==>
      TranslateContent(Some(SubscriberMessage(agent)), t) == SubscriberMessage(agent)
  {
    var m := SubscriberMessage(agent);
    SubscriberMessageNotLegacy(agent);
    assert OccursAt(m, SubscribedPrefix, 0);
    OccurrenceIsContained(m, SubscribedPrefix, 0);
    AgentNameRoundTrip(agent);
  }

  /** As written, an untranslated subscription message is rebuilt with the
      agent's name short of its last character. */
  lemma SubscriberMessageRebuiltAsWritten(agent: string, t: string -> string)
    requires !Contains(SubscriberMessage(agent), "New Subscriber")
    requires agent != [] && agent[0] != '.' && !IsLineTerminator(agent[|agent| - 1])
    requires t(SubscriberMessage(agent)) == SubscriberMessage(agent)
    requires t(MessagePrefixKey) != MessagePrefixKey
    ensures TranslateContentAsWritten(Some(SubscriberMessage(agent)), t) ==
      t(MessagePrefixKey) + " '" + agent[..|agent| - 1] + "'"
  {
    var m := SubscriberMessage(agent);
    SubscriberMessageNotLegacy(agent);
    assert OccursAt(m, SubscribedPrefix, 0);
    OccurrenceIsContained(m, SubscribedPrefix, 0);
    AgentNameLosesLastChar(agent);
  }
}
