# A-Series web client: the logic inside its components, in Dafny

This project models the deterministic core of a React single-page app. The app is a marketplace of AI agents with a user area and an admin console. Its components mostly render markup and call REST endpoints. Inside them sit small rules and state transitions, and those are what the model captures:

- **Validators:** the contact form, the password and avatar checks, and the document-upload file list.
- **Classifiers and list operations:** support inquiries, transaction statuses, notifications, the unread badge and legacy-text translation.
- **State machines:** the live call, the document chat, the admin navigation, the FAQ accordion with its support ticket, the agent inventory and the language switcher.
- **Derivations:** the avatar URL and the agent-creation payload.

Every component state is an immutable datatype. Every handler is a pure function from the old state and the outcome of its backend call to the new state. Lemmas relate the handlers to each other: inverses, idempotence, preserved invariants, order preservation and permutations.

Some things become parameters:

- **Backend calls:** the outcome of a call (`Succeeded` / `Failed`), or the reply the server sends.
- **Environment values:** the clock (`now`), the translator `t` (a `string -> string`), `encodeURIComponent` and `JSON.parse`, the captured video frame, and the confirmation dialog's answer.

Shared modules hold the JavaScript semantics the components rely on:

- `Common`: optional values and the `a || b` fallback.
- `Text`: `trim` with the ECMAScript whitespace set, ASCII case mapping, `indexOf`, `includes`, `replace` with a string pattern, `substring`, `split(sep)[0]`, decimal `toString` and `padStart`.
- `Json`: JavaScript values with their truthiness.
- `Sorting`: `filter`, and a stable insertion sort. With a consistent comparator, a stable sort has exactly one possible result, so this sort orders elements exactly as `Array.prototype.sort` does.

Two modelling decisions:

- **Live call:** a failed request shows "Connection error." and records no turn, so the history stays as it was (`src/Components/LiveAI.jsx:179-182`).
- **Upload modal:** the reset effect at `src/agents/AIBASE/components/common/UploadModal.jsx:16` uses `useEffect`, which line 1 does not import. The model takes the evident intent: closing the modal empties the list and the error (`UploadModal.OnOpenChange`).

## Model

| member | source | states |
|---|---|---|
| UploadModal.ValidateFile | src/agents/AIBASE/components/common/UploadModal.jsx:6-35 | A file over 50·1024·1024 bytes is rejected as too large. A file of exactly that size passes. Only a file within the cap can be rejected as a duplicate of a same-name, same-size file already selected. Otherwise it is accepted. |
| UploadModal.AddFiles | src/agents/AIBASE/components/common/UploadModal.jsx:37-59 | The old list stays as a prefix. An error is reported iff some file of the batch is rejected. |
| UploadModal.AddFilesLoop | src/agents/AIBASE/components/common/UploadModal.jsx:42-58 | The `forEach` loop, run step by step, computes the same state as the functional `AddFiles`. |
| UploadModal.AddFilesAppendsAccepted | src/agents/AIBASE/components/common/UploadModal.jsx:42-58 | The appended files are an order-preserving subsequence of the batch. Each accepted file appears as many times as in the batch, and a rejected file never appears. |
| UploadModal.AddFilesReportsLastRejection | src/agents/AIBASE/components/common/UploadModal.jsx:38-54 | When files are rejected, the error shown is the message of the last rejected file. |
| UploadModal.LastRejectionIsLast | src/agents/AIBASE/components/common/UploadModal.jsx:42-49 | The last rejection of a batch is the rejection of its last rejected file. |
| UploadModal.BatchTwinsBothAccepted | src/agents/AIBASE/components/common/UploadModal.jsx:31-49 | Duplicates are judged only against the list before the call, so two identical new files in one batch are both added. |
| UploadModal.RemoveFile | src/agents/AIBASE/components/common/UploadModal.jsx:77-80 | Removes exactly the file at the index and keeps the order of the rest. An out-of-range index removes nothing. The error is cleared either way. |
| UploadModal.RemoveUndoesAdd | src/agents/AIBASE/components/common/UploadModal.jsx:42-80 | Removing the single file just added restores the previous list. |
| UploadModal.Submit | src/agents/AIBASE/components/common/UploadModal.jsx:91-95 | `onUpload` receives the list iff it is non-empty and no upload is running. |
| UploadModal.OnOpenChange | src/agents/AIBASE/components/common/UploadModal.jsx:16-21 | Closing the modal empties the list and the error. While it is open, nothing changes. |
| UploadModal.Reset | src/agents/AIBASE/components/common/UploadModal.jsx:97-101 | Empties the list and the error, whatever they were. |
| UploadModal.NothingToSubmitAfterReset | src/agents/AIBASE/components/common/UploadModal.jsx:91-101 | After `reset` nothing can be submitted. |
| ContactForm.Set | src/pages/ContactUs.jsx:43-46 | Writing one field changes that field and no other. |
| ContactForm.EmailShapeIsPattern | src/pages/ContactUs.jsx:32 | The explicit email shape holds iff the text matches `^[^\s@]+@[^\s@]+\.[^\s@]+$`: no whitespace, exactly one '@' not at the start, and a dot with text on both sides after it. |
| ContactForm.PatternIsShaped | src/pages/ContactUs.jsx:32 | Any `a@b.c` made of non-empty runs without whitespace or '@' passes the email check. |
| ContactForm.ValidateForm | src/pages/ContactUs.jsx:27-39 | Phone and category never receive an error. |
| ContactForm.ValidateFormErrors | src/pages/ContactUs.jsx:30-35 | Per field, with the exact message: name and subject are required iff blank after trimming. The email is "required" when blank and "invalid" when it fails the pattern. The message is "required" when blank and "too short" when its trimmed length is below 10. |
| ContactForm.ValidIffAllFieldsPass | src/pages/ContactUs.jsx:27-38 | The form is valid iff every checked field passes. |
| ContactForm.UncheckedFieldsIgnored | src/pages/ContactUs.jsx:27-38 | Editing the phone or the category never changes the validation result. |
| ContactForm.HandleChange | src/pages/ContactUs.jsx:41-53 | Updates only the named field. Only that field's error is blanked, and only if it had one. No error key is added. |
| ContactForm.HandleChangeAddsNoError | src/pages/ContactUs.jsx:47-52 | Any non-empty error after a change was already there before it. |
| ContactForm.HandleSubmit | src/pages/ContactUs.jsx:55-84 | The form is sent iff it is valid. The errors become the validation result. A success resets the form to its initial values and a failure keeps it. |
| ContactForm.InvalidNeverSent | src/pages/ContactUs.jsx:58-61 | A form with any failing field is never sent. |
| ContactForm.SuccessResetsForm | src/pages/ContactUs.jsx:75-84 | After a successful send, every field is empty and the category is 'general'. That form cannot be sent again unchanged. |
| Profile.Toggled | src/pages/Profile.jsx:82 | Negates exactly the given key and leaves every other key as it was. |
| Profile.ToggledTwice | src/pages/Profile.jsx:82 | Toggling a key twice restores every flag. |
| Profile.ToggleSettingAsWritten | src/pages/Profile.jsx:80-106 | As written: the stored copy is always the toggled settings. The shown settings revert only when a save with a token fails. |
| Profile.StoredCopyGoesStale | src/pages/Profile.jsx:85-105 | A failed save of 'twoFactor' shows it enabled but stores it disabled. |
| Profile.ToggleSetting | src/pages/Profile.jsx:80-106 | Corrected: the stored copy always equals the shown settings. A failed save reverts both. Otherwise exactly the key flips. |
| Profile.ToggleSettingTwiceRestores | src/pages/Profile.jsx:80-106 | Two successful toggles of one key restore every flag. |
| Profile.CheckPassword | src/pages/Profile.jsx:111-118 | Rejects a mismatch first, then a new password shorter than 6. It proceeds iff the two entries agree and have at least 6 characters. |
| Profile.HandlePasswordChange | src/pages/Profile.jsx:109-135 | The modal closes and the form empties only on a passing check and a successful request. Otherwise nothing changes. |
| Profile.ClosedModalMeansValidPassword | src/pages/Profile.jsx:111-130 | If the open modal closes, the new password was confirmed and at least 6 characters long. |
| Profile.CheckAvatar | src/pages/Profile.jsx:225-246 | Checks in order: the file is missing, it is not 'image/…' (before the size), it is over 50·1024·1024 bytes, or there is no user or no token. |
| Profile.AvatarUploadStarts | src/pages/Profile.jsx:225-248 | The upload starts iff a file is present, is an image, is within the cap, and there is a user with a token. |
| Profile.CacheBust | src/pages/Profile.jsx:272-273 | The URL is kept as a prefix of the result. |
| Profile.CacheBustParts | src/pages/Profile.jsx:272-273 | The URL is followed by '&' if it already contains '?' and '?' otherwise, then 't=' and digits that read back as the timestamp. |
| Profile.UploadedAvatar | src/pages/Profile.jsx:265-273 | Uses `avatarUrl`, else `avatar`, with the cache buster. There is none iff both are missing or empty. |
| Profile.PreferenceClick | src/pages/Profile.jsx:365-368 | Clicking the active section closes it, and any other click opens that section. 'language' also sets the selection mode. |
| Profile.PreferenceClickTwice | src/pages/Profile.jsx:365-368 | Two clicks on a section restore whether it was open. |
| Profile.RoleBadgeOf | src/pages/Profile.jsx:487 | Admin iff the role lower-cases to 'admin' and developer iff it lower-cases to 'developer'. A missing role gets the user badge. |
| Profile.RoleBadgeIgnoresCase | src/pages/Profile.jsx:487 | Upper-casing the role never changes the badge. |
| Profile.GetNativeName | src/pages/Profile.jsx:370-388 | Gives the table entry, or the input unchanged when the language is absent. |
| Profile.GetNativeNameIdempotent | src/pages/Profile.jsx:370-388 | No native name is a key, so looking a name up twice changes nothing. |
| Profile.ReplaceWordsFromSelf | src/pages/Profile.jsx:396-397 | Replacing a whole word by itself gives back the text. |
| Profile.NoWholeWordUnchanged | src/pages/Profile.jsx:396-397 | Text without a whole-word occurrence is unchanged. |
| Profile.WholeWordsOnly | src/pages/Profile.jsx:396 | The `\b` anchors keep 'India' inside 'Indian' untouched. |
| Profile.StandaloneWordReplaced | src/pages/Profile.jsx:396 | 'India' standing on its own is replaced. |
| Profile.ApplyKeywordsSnoc | src/pages/Profile.jsx:395-398 | The entries are applied one after another, in table order. |
| Profile.TranslateTimezone | src/pages/Profile.jsx:390-393 | Without a keyword table the name comes back unchanged. |
| Profile.IdentityKeywordsKeepName | src/pages/Profile.jsx:390-399 | A table mapping every word to itself leaves every name unchanged. |
| LiveCall.FormatDuration | src/Components/LiveAI.jsx:69-73 | The text ends in ':' followed by two characters. |
| LiveCall.FormatDurationReadsBack | src/Components/LiveAI.jsx:69-73 | The part before the ':' reads back as the input div 60. The two digits after it read back as the input mod 60, which is below 60. |
| LiveCall.PaddedValue | src/Components/LiveAI.jsx:72 | A zero-padded decimal reads back as its value. |
| LiveCall.SpeechLanguage | src/Components/LiveAI.jsx:100-108 | Gives the six-entry map's code, or 'en-US' for an unlisted language. |
| LiveCall.SpeechLanguageIsListed | src/Components/LiveAI.jsx:100-108 | The chosen code is always one of the map's codes. |
| LiveCall.AttachmentFor | src/Components/LiveAI.jsx:152-156 | An image is attached iff video is on and a frame was captured. |
| LiveCall.ProcessQuery | src/Components/LiveAI.jsx:146-183 | For the video flag the running handler saw: blank text changes nothing. Otherwise listening stops. Success appends the user turn, with the frame attached iff that flag is on and a frame was captured, then the model turn. Failure shows "Connection error." and keeps the history. |
| LiveCall.ProcessQueryKeepsPairs | src/Components/LiveAI.jsx:173-182 | The history keeps its earlier entries and stays a sequence of user/model pairs, whatever the video flag and the reply. |
| LiveCall.ImagesOnlyWithVideo | src/Components/LiveAI.jsx:152-156 | Corrected: with a handler that reads the current video flag, a call with video off never records an image. |
| LiveCall.OnRecognitionResult | src/Components/LiveAI.jsx:199-207 | Corrected: the transcript always shows the text; only a final result is processed, and its user turn carries a frame only while the video is on now. A failed request records nothing. |
| LiveCall.OnRecognitionResultAsWritten | src/Components/LiveAI.jsx:186-210 | As written: the transcript shows the text, and a final answered result appends a user turn whose attachment is decided as if the video were on, as it was at mount (line 15). |
| LiveCall.FrameSentWithVideoOff | src/Components/LiveAI.jsx:186-210 | As written: with video off and a frame captured, a spoken query still records that frame as an image. |
| LiveCall.ToggleListening | src/Components/LiveAI.jsx:212-223 | With recognition support, stopping only clears listening, and starting also silences the speech and clears the transcript. Without support (lines 187-190) listening never changes; a start still silences the speech and clears the transcript. |
| LiveCall.ListenThenStop | src/Components/LiveAI.jsx:212-223 | With or without recognition support, start then stop leaves the call silent, with an empty transcript and the same history. |
| LiveCall.SwitchCamera | src/Components/LiveAI.jsx:234-236 | Only the facing mode changes, and it flips. |
| LiveCall.SwitchCameraTwice | src/Components/LiveAI.jsx:234-236 | Switching twice restores the state. |
| SupportDesk.NormalizeReport | src/Components/Admin/Support.jsx:21-29 | Origin is report and the title is the description. The user defaults to 'Unknown User' and the email to 'No Email'. The date is the timestamp. |
| SupportDesk.NormalizeTicket | src/Components/Admin/Support.jsx:32-42 | Origin is ticket and the title is the message. The user defaults to 'Guest' and the priority is 'medium'. The date is the creation time. |
| SupportDesk.NormalizeReports | src/Components/Admin/Support.jsx:21 | Normalises each report in place. |
| SupportDesk.NormalizeTickets | src/Components/Admin/Support.jsx:32 | Normalises each ticket in place. |
| SupportDesk.MergeIsPermutation | src/Components/Admin/Support.jsx:44 | The merged list is a permutation of the normalised reports followed by the tickets. |
| SupportDesk.MergeNewestFirst | src/Components/Admin/Support.jsx:44 | The merged list is ordered newest first. |
| SupportDesk.MergeKeepsTies | src/Components/Admin/Support.jsx:44 | Inquiries with equal dates keep their reports-then-tickets order. |
| SupportDesk.FilterInquiries | src/Components/Admin/Support.jsx:75-80 | 'open' keeps exactly the open and in-progress inquiries, and 'resolved' keeps exactly the resolved and closed ones, each as many times as it occurs. |
| SupportDesk.FilterIsOrderedSubset | src/Components/Admin/Support.jsx:75 | The filtered list is an order-preserving subsequence, and filtering twice is filtering once. |
| SupportDesk.OtherFiltersShowAll | src/Components/Admin/Support.jsx:76-79 | 'all' and any unknown filter keep everything. |
| SupportDesk.UpdateFor | src/Components/Admin/Support.jsx:60-64 | A report goes to the report endpoint and a ticket to the ticket endpoint, with the status and the note. |
| SupportDesk.HandleResolve | src/Components/Admin/Support.jsx:56-73 | Nothing happens without a selection. Success clears the selection and the note and reloads the list. Failure changes only the busy flag. |
| SupportDesk.ResolveReachesSource | src/Components/Admin/Support.jsx:60-64 | Every row of the merged list (normalised at lines 21-42) resolves back to the report or ticket it came from, through that record's endpoint and under its id. |
| SupportDesk.ResolveFrame | src/Components/Admin/Support.jsx:56-73 | The list changes only after a successful update and reload. After a successful update nothing is selected, so a second resolve sends nothing. |
| SupportDesk.ActionAvailability | src/Components/Admin/Support.jsx:187-197 | "Mark In-Progress" is offered only where "Mark Resolved" is. A resolved inquiry offers neither, and a closed one offers only resolve. |
| TransactionHistory.ClassOfLower | src/Components/Admin/TransactionHistory.jsx:44-47 | Success for captured, succeeded or success. Pending for created or pending. Failed for failed. |
| TransactionHistory.StatusLabel | src/Components/Admin/TransactionHistory.jsx:42-49 | 'UNKNOWN' for a missing or empty status. Known statuses in any letter case get their class name, and anything else is upper-cased. |
| TransactionHistory.StatusColor | src/Components/Admin/TransactionHistory.jsx:51-57 | Gives the class of the lower-cased status, neutral when missing. |
| TransactionHistory.LabelAndColourAgree | src/Components/Admin/TransactionHistory.jsx:42-57 | The colour always matches the class the label names. |
| TransactionHistory.ListId | src/Components/Admin/TransactionHistory.jsx:109 | '#' then the last 8 characters of the id (all of a shorter id), upper-cased. |
| TransactionHistory.DetailId | src/Components/Admin/TransactionHistory.jsx:234 | '#' then the last 12 characters of the id (all of a shorter id), upper-cased. |
| TransactionHistory.ListIdEndsDetailId | src/Components/Admin/TransactionHistory.jsx:109 | The list id is the tail of the detail id, so both show the end of the same id (the detail view is at line 234). |
| TransactionHistory.ShownIdsReadBack | src/Components/Admin/TransactionHistory.jsx:109 | For an id without capitals, lower-casing a shown id gives back the tail of the id, and the whole id when it has at most 8 characters (the detail view is at line 234). |
| TransactionHistory.Hundredths | src/Components/Admin/TransactionHistory.jsx:269 | `toFixed(2)` in hundredths: the nearest hundredth, a tie rounding away from zero. |
| TransactionHistory.ShownSharesAddUp | src/Components/Admin/TransactionHistory.jsx:264-275 | On exact reals: for an amount in whole paise, the fee and earnings are equal halves that make up the amount. The shown amount is exact, and the shown fee and earnings add up to it, or to one paisa more when the amount is odd. |
| TransactionHistory.ShownSharesWithinOnePaisa | src/Components/Admin/TransactionHistory.jsx:269-275 | For any share within half a paisa of the half amount, as the page's rounded doubles are: an even amount shows exactly, an odd one one paisa less or one paisa more. |
| Notifications.MarkAsRead | src/pages/Notifications.jsx:34-42 | After success, exactly the entries with the id are read and everything else is unchanged. A failure changes nothing. |
| Notifications.MarkAsReadIdempotent | src/pages/Notifications.jsx:38 | Marking twice is marking once. |
| Notifications.DeleteNotification | src/pages/Notifications.jsx:44-52 | After success, exactly the entries with the id are gone, and every other entry stays as many times as it was there. A failure changes nothing. |
| Notifications.DeleteKeepsOrder | src/pages/Notifications.jsx:48 | The survivors keep their order, and deleting twice is deleting once. |
| Notifications.FilterMarked | src/pages/Notifications.jsx:38-48 | Marking does not change which entries survive a deletion of the same id. |
| Notifications.MarkThenDeleteIsDelete | src/pages/Notifications.jsx:38-48 | Marking then deleting equals deleting. |
| Notifications.ReplaceLeading | src/pages/Notifications.jsx:95 | Replacing a leading prefix removes it. |
| Notifications.StripQuotesOfQuoted | src/pages/Notifications.jsx:97 | The quotes around a name come off. |
| Notifications.QuotedAgentNameOfMessage | src/pages/Notifications.jsx:92-97 | In a backend subscription message, everything but the quoted name is stripped. |
| Notifications.AgentNameLosesLastChar | src/pages/Notifications.jsx:98 | As written, the final clean-up drops the last character of every such name. |
| Notifications.ManychatsBecomesManychat | src/pages/Notifications.jsx:98 | As written, 'Manychats' is shown as 'Manychat'. |
| Notifications.AgentNameRoundTrip | src/pages/Notifications.jsx:92-98 | Corrected: the extracted name is exactly the name in the message. |
| Notifications.TranslateContent | src/pages/Notifications.jsx:75-110 | Corrected: empty content gives "". A usable direct translation is returned. A subscription message whose prefix is translated is rebuilt as the translated prefix and the quoted agent name with only dots stripped at its ends. Any other content is returned as stored. |
| Notifications.TranslateContentAsWritten | src/pages/Notifications.jsx:75-110 | As written: the same cases, except that the rebuilt message quotes the name as extracted by line 98, which drops its last character. |
| Notifications.SubscriberMessageRebuiltAsWritten | src/pages/Notifications.jsx:89-109 | As written: an untranslated subscription message for a non-empty agent is shown as the translated prefix and the agent's name without its last character, in quotes. |
| Notifications.LegacyTextTranslated | src/pages/Notifications.jsx:63-84 | A legacy text is shown as the translation of its mapped key. |
| Notifications.KeyLikeTranslationsRejected | src/pages/Notifications.jsx:83 | A translation is used only if it differs from the key and does not start with 'notificationsPage.'; a restatement of TranslateContent's direct-translation case, not a partner of it. |
| Notifications.SubscriberMessageRebuilt | src/pages/Notifications.jsx:89-109 | Corrected: a subscription message becomes the translated prefix plus the quoted full name when the prefix translation exists, and stays as it is otherwise. |
| Sidebar.UnreadCount | src/Components/SideBar/Sidebar.jsx:215 | The number of unread notifications, 0 when there is no list. |
| Sidebar.BadgeShownIffUnread | src/Components/SideBar/Sidebar.jsx:215-216 | The badge shows iff the list holds an unread notification, and never without a list. |
| Sidebar.BadgeText | src/Components/SideBar/Sidebar.jsx:218 | '9+' iff the count exceeds 9. |
| Sidebar.BadgeTextReadsBack | src/Components/SideBar/Sidebar.jsx:218 | Otherwise the badge is one digit reading back as the count. |
| Sidebar.MarkAsReadLowersCount | src/Components/SideBar/Sidebar.jsx:215 | After marking, the badge counts only the unread entries with other ids, and it never goes up. |
| Sidebar.DeleteLowersCount | src/Components/SideBar/Sidebar.jsx:215 | After deleting, the badge counts only the unread entries with other ids. |
| Sidebar.RegionLabel | src/Components/SideBar/Sidebar.jsx:293 | The region code (default 'IN'), then ' - ', then at most two characters. |
| Sidebar.RegionLabelLanguagePart | src/Components/SideBar/Sidebar.jsx:293 | Those characters are the language's first two, upper-cased. 'English' with no region reads 'IN - EN'. |
| Sidebar.AvatarInitial | src/Components/SideBar/Sidebar.jsx:250 | The upper-cased first letter of the name, or 'U'. |
| UserStore.GetAvatarUrl | src/userStore/userData.js:3-15 | "" without a user or an email. A Gmail address in any case gets the Google path and any other address the generic path. Both carry the encoded fallback. |
| UserStore.AvatarUrlNamesEmail | src/userStore/userData.js:4-14 | The URL is empty iff the email is missing, and otherwise starts with the path for that email. |
| UserStore.GmailIgnoresCase | src/userStore/userData.js:9 | The Gmail test ignores letter case. |
| UserStore.ProcessUser | src/userStore/userData.js:17-25 | A missing user stays missing. Only the avatar may change. It is replaced iff it is missing, from gravatar.com, or relative. |
| UserStore.ProcessUserIdempotent | src/userStore/userData.js:17-25 | Processing twice is processing once. |
| UserStore.GetUser | src/userStore/userData.js:38-51 | Missing, "undefined" and "null" give no user. Only a parsed object gives a processed user. Unparsable text, and a primitive value that makes the avatar assignment throw, remove the entry. |
| UserStore.GetUserIsProcessed | src/userStore/userData.js:38-51 | A user read back is already processed, and removing the entry yields no user. |
| DocumentChat.HandleSend | src/agents/AIBASE/AiBaseChat.jsx:87-121 | A blank input or a running request changes nothing. Otherwise one user message stamped with the send time is appended and the input is cleared. Then comes one answer stamped with the time read after the reply plus one, no answer on an unsuccessful reply, or the server's message or the apology on an error. |
| DocumentChat.ConversationIdAdoptedOnce | src/agents/AIBASE/AiBaseChat.jsx:106-108 | The id changes only when none was set and an answer brings a new one. |
| DocumentChat.SendAppendsOnly | src/agents/AIBASE/AiBaseChat.jsx:91-117 | Earlier messages are kept and at most two are appended, the second being the assistant's. |
| DocumentChat.UploadResultText | src/agents/AIBASE/AiBaseChat.jsx:138-150 | There is no new text exactly when the upload reports no success without throwing. |
| DocumentChat.StartUpload | src/agents/AIBASE/AiBaseChat.jsx:124-133 | Without a file nothing changes. Otherwise one placeholder notice is appended. |
| DocumentChat.FinishUploadAsWritten | src/agents/AIBASE/AiBaseChat.jsx:139-150 | As written: rewrites the last message, keeping the length. |
| DocumentChat.FinishUpload | src/agents/AIBASE/AiBaseChat.jsx:139-150 | Corrected: rewrites only the placeholder, found by its id, and every other message is unchanged. |
| DocumentChat.UploadAddsOneMessage | src/agents/AIBASE/AiBaseChat.jsx:124-150 | An upload adds exactly one message, holding the result text or the notice. |
| DocumentChat.HandleFileUpload | src/agents/AIBASE/AiBaseChat.jsx:124-156 | Corrected: the result is written into the placeholder by its id rather than into the last message. Without a file nothing changes. Otherwise one message is appended, stamped with the upload time, holding the result text or, on an unsuccessful response, the notice; earlier messages with other ids are untouched. |
| DocumentChat.SequentialUploadAgrees | src/agents/AIBASE/AiBaseChat.jsx:124-150 | With nothing sent meanwhile, the corrected upload equals the written one. |
| DocumentChat.AnswerOverwrittenDuringUpload | src/agents/AIBASE/AiBaseChat.jsx:139-143 | As written, an answer that arrives during an upload is overwritten by the upload result, and the placeholder stays. |
| DocumentChat.InterleavedUploadKeepsOthers | src/agents/AIBASE/AiBaseChat.jsx:139-150 | Corrected: messages added during the upload are kept and only the placeholder gets the result. |
| DocumentChat.StartNewChat | src/agents/AIBASE/AiBaseChat.jsx:57-64 | Leaves a single greeting and no conversation id. |
| DocumentChat.NewChatAdoptsNextId | src/agents/AIBASE/AiBaseChat.jsx:106-108 | After a new chat, the first answered question adopts the server's conversation id, and the list is the greeting, the question and the answer. |
| DocumentChat.HandleDeleteChat | src/agents/AIBASE/AiBaseChat.jsx:67-80 | Cancelled or failed deletions change nothing. Deleting the open conversation starts a new chat, and deleting another one changes nothing. |
| DocumentChat.DeleteOpenConversationCloses | src/agents/AIBASE/AiBaseChat.jsx:73-75 | Deleting the open conversation leaves no id and one message; an instance of HandleDeleteChat's contract, not a partner of it. |
| DocumentChat.LoadConversation | src/agents/AIBASE/AiBaseChat.jsx:39-54 | A loaded conversation sets its id and maps each stored message to one numbered by its position. A failure changes nothing. |
| DocumentChat.LoadedIdsDistinct | src/agents/AIBASE/AiBaseChat.jsx:45-49 | Loaded messages have distinct ids. |
| AdminOverview.PlanObject | src/Components/Admin/AdminOverview.jsx:40-45 | A plan has its name, the configured price or {} when there is none, and the config's currency and billing cycle. |
| AdminOverview.CreatePayload | src/Components/Admin/AdminOverview.jsx:34-52 | url is agentUrl and pricingModel is pricing. agentUrl and pricingConfig are removed. |
| AdminOverview.PayloadCopiesFields | src/Components/Admin/AdminOverview.jsx:34-52 | Every other form field is copied unchanged, and no key appears from nowhere. |
| AdminOverview.SubscriptionPlans | src/Components/Admin/AdminOverview.jsx:38-45 | With a pricing config: a subscription with one plan per configured name, in order. |
| AdminOverview.SimplePricing | src/Components/Admin/AdminOverview.jsx:46-49 | Without one: 'Free' iff the pricing is 'Free', else 'Paid', and the plans are [pricing]. |
| UserTransactions.LoadTransactions | src/pages/UserTransactions.jsx:20-26 | The list is the response array. A non-array response or a failed request gives []. |
| UserTransactions.LoadTransactionsStable | src/pages/UserTransactions.jsx:20-26 | A loaded list, handed back as an array response, loads as the same list; an instance of LoadTransactions' contract, not a partner of it. |
| UserTransactions.AppName | src/pages/UserTransactions.jsx:90 | The agent's name, or 'Unknown App' (the detail view repeats it at line 225). |
| UserTransactions.PlanInList | src/pages/UserTransactions.jsx:93 | The plan, or 'N/A'. |
| UserTransactions.PlanInDetail | src/pages/UserTransactions.jsx:226 | The plan, or the translated word for plan. |
| UserTransactions.DetailId | src/pages/UserTransactions.jsx:209 | '#' plus the transaction id when present, else the last 12 characters of the record id, upper-cased. |
| UserTransactions.DetailIdMatchesAdminView | src/pages/UserTransactions.jsx:209 | Without a transaction id, the user sees the admin detail view's id. |
| UserTransactions.DateLocale | src/pages/UserTransactions.jsx:36 | 'hi-IN' iff the language is 'Hindi', else 'en-IN'. |
| UserTransactions.HindiDatesMatchHindiVoice | src/pages/UserTransactions.jsx:36 | Dates use the Hindi locale exactly when the live call speaks Hindi (its map is at src/Components/LiveAI.jsx:100-108). |
| UserTransactions.StatusCaseDiffersFromAdminView | src/pages/UserTransactions.jsx:99-104 | Only 'Success' exactly shows as success: 'success' shows as pending here, while the admin history labels it SUCCESS. |
| HelpFaq.ToggleFaq | src/Components/Help/HelpFAQModal.jsx:83 | Question i is open afterwards iff it was closed. When it is not open, nothing is. |
| HelpFaq.ToggleFaqTwice | src/Components/Help/HelpFAQModal.jsx:83 | Clicking one question twice closes it, and clicking another moves the open answer there. |
| HelpFaq.PayloadFor | src/Components/Help/HelpFAQModal.jsx:31-36 | Sends the user's email or 'guest@ai-mall.in', the issue type, the text, and the user id or null. |
| HelpFaq.Submit | src/Components/Help/HelpFAQModal.jsx:26-46 | Blank text sends nothing. Success shows 'success' and clears the text. Failure shows 'error' and keeps it. Sending ends either way. |
| HelpFaq.PostedTicketsAreMeaningful | src/Components/Help/HelpFAQModal.jsx:27-32 | A posted ticket has non-blank text and a reply address. |
| HelpFaq.SubmitThenButton | src/Components/Help/HelpFAQModal.jsx:37-42 | After success the button is disabled, and after failure it allows a retry (the button test is at line 133). |
| HelpFaq.StatusTimeout | src/Components/Help/HelpFAQModal.jsx:39 | The timer clears only the status. |
| UserDropdown.ChipShownIffAvatar | src/Components/Navbar/UserDropdown.jsx:10 | No chip without a user or without an email, and the chip shows iff the store builds an avatar address for the user (src/userStore/userData.js:3-15). |
| UserDropdown.DisplayName | src/Components/Navbar/UserDropdown.jsx:12-16 | "U" without a name, the translated admin name for 'Admin', and the name otherwise. |
| UserDropdown.GreetingName | src/Components/Navbar/UserDropdown.jsx:46 | The admin sees the full display name. Anyone else sees a non-empty word without spaces, and a name starting with a space is greeted as 'User'. |
| UserDropdown.Initial | src/Components/Navbar/UserDropdown.jsx:39 | The display name's first character, upper-cased. |
| UserDropdown.InitialAgreesWithSidebar | src/Components/Navbar/UserDropdown.jsx:39 | For every user but 'Admin', the chip's letter is the sidebar's (src/Components/SideBar/Sidebar.jsx:250), and it is the name's first character up to case. |
| UserDropdown.GreetingStartsName | src/Components/Navbar/UserDropdown.jsx:39-46 | The greeting is the name up to its first space, and the avatar shows that word's initial. |
| UserDropdown.NamelessUser | src/Components/Navbar/UserDropdown.jsx:12-46 | A nameless user is greeted as "U" with the letter "U". |
| AdminPage.RenderContent | src/pages/Admin.jsx:69-83 | Each tab shows its own screen: users, agents, complaints (the support desk) and settings each iff that tab is active. Finance shows transactions iff the sub-tab is 'transactions', and financials otherwise. Unknown tabs show the overview. |
| AdminPage.MainClick | src/pages/Admin.jsx:91-98 | Sets the tab and keeps the sub-tab. Only an entry with sub-items folds the revenue menu. The mobile sidebar closes. |
| AdminPage.SubClick | src/pages/Admin.jsx:116-121 | Sets the tab and the sub-tab, and the mobile sidebar closes. |
| AdminPage.ClicksKeepSearch | src/pages/Admin.jsx:91-121 | Follows from the clicks' detail-view frame: no sidebar click changes whether the header search box (line 211) is shown. Hence a click from an agent's detail view moves to another screen with the search box still hidden, since the agent screen resets the flag only through its selection effect (src/Components/Admin/AgentManagement.jsx:21-25), which has no cleanup. |
| AdminPage.ClicksKeepConsistent | src/pages/Admin.jsx:46-121 | Any sidebar click keeps the sub-tab one of the finance entries. |
| AdminPage.HighlightMatchesScreen | src/pages/Admin.jsx:76-122 | Under finance, the highlighted sub-item names the screen shown. |
| AdminPage.FinanceRemembersSubTab | src/pages/Admin.jsx:91-98 | Returning to finance shows the last finance screen, and two clicks leave the menu folded as before. |
| AgentManagement.CreatePayload | src/Components/Admin/AgentManagement.jsx:51-54 | Copies every field and sets url to url if truthy, else to agentUrl. |
| AgentManagement.PayloadKeepsGivenUrl | src/Components/Admin/AgentManagement.jsx:51-54 | A form with a url goes out unchanged. |
| AgentManagement.SuccessName | src/Components/Admin/AgentManagement.jsx:57 | agentName, else name, else 'New Agent'. |
| AgentManagement.SuccessNameIsShown | src/Components/Admin/AgentManagement.jsx:57 | The success name is never empty. |
| AgentManagement.AskDelete | src/Components/Admin/AgentManagement.jsx:69-73 | Opens the dialog for that agent. |
| AgentManagement.ConfirmDelete | src/Components/Admin/AgentManagement.jsx:75-87 | Nothing happens without a pending agent. Otherwise it deletes that agent. Success closes the dialog and clears the pending agent, and failure keeps both. |
| AgentManagement.DeleteOnlyWhatWasAsked | src/Components/Admin/AgentManagement.jsx:69-87 | The confirmed deletion is of the agent asked about, and a second confirmation deletes nothing. |
| AgentManagement.IdPreview | src/Components/Admin/AgentManagement.jsx:213 | The first 8 characters of the id, or the whole id when it is shorter. |
| AgentManagement.BadgesAreCaseSensitive | src/Components/Admin/AgentManagement.jsx:219-227 | Only 'Live' and 'Active' exactly are highlighted. A review status shows unless it is empty or exactly 'Approved'. |
| AgentManagement.LowerCaseBadges | src/Components/Admin/AgentManagement.jsx:219-227 | For every status: written in lower case it is never highlighted, and a non-empty review status in lower case is always shown. |
| LanguageSwitcher.GetNativeName | src/Components/LanguageSwitcher/LanguageSwitcher.jsx:13-42 | Gives the table entry, or the input unchanged. |
| LanguageSwitcher.AgreesWithProfile | src/Components/LanguageSwitcher/LanguageSwitcher.jsx:13-42 | Every language the profile page lists gets the same native name here. |
| LanguageSwitcher.ButtonLabel | src/Components/LanguageSwitcher/LanguageSwitcher.jsx:71 | The native name up to its first ' -'. |
| LanguageSwitcher.SpanishButton | src/Components/LanguageSwitcher/LanguageSwitcher.jsx:71 | 'Spanish' shows as 'Español' (the table entry is at line 15). |
| LanguageSwitcher.LabelBeforeCode | src/Components/LanguageSwitcher/LanguageSwitcher.jsx:71 | Any entry whose name holds no " -" and is followed by " -" shows as that name, whatever follows. |
| LanguageSwitcher.UnlistedButton | src/Components/LanguageSwitcher/LanguageSwitcher.jsx:71 | An unlisted language without spaces shows as it is (the fallback is at line 42). |
| LanguageSwitcher.LexLeAntisymmetric | src/Components/LanguageSwitcher/LanguageSwitcher.jsx:94 | The default string order ties only equal strings. |
| LanguageSwitcher.AlphabeticalIsOrder | src/Components/LanguageSwitcher/LanguageSwitcher.jsx:94 | The default string order is total and transitive. |
| LanguageSwitcher.SortedOptions | src/Components/LanguageSwitcher/LanguageSwitcher.jsx:94 | The options are a permutation of the languages. |
| LanguageSwitcher.OptionsAreSorted | src/Components/LanguageSwitcher/LanguageSwitcher.jsx:94 | The options are in order, and sorting the sorted shared list again changes nothing. |
| LanguageSwitcher.Select | src/Components/LanguageSwitcher/LanguageSwitcher.jsx:97-100 | Sets the language and closes the list. |
| LanguageSwitcher.ToggleOpen | src/Components/LanguageSwitcher/LanguageSwitcher.jsx:63 | The button opens a closed list and closes an open one, and keeps the language. |
| LanguageSwitcher.ToggleOpenTwice | src/Components/LanguageSwitcher/LanguageSwitcher.jsx:63 | Two presses leave the switcher as it was. |
| LanguageSwitcher.SelectMovesCheckmark | src/Components/LanguageSwitcher/LanguageSwitcher.jsx:107 | Exactly the chosen option carries the checkmark. |

## Left out

- Network, storage, toasts, timers, navigation, media devices, speech recognition and synthesis, and canvas capture: their outcomes are parameters.
- Case mapping is ASCII only: the model leaves every non-ASCII letter unchanged, while JavaScript maps every cased letter (`'é'` to `'É'`, and `'ß'` to the two letters `'SS'`). Sidebar.AvatarInitial, UserDropdown.Initial, TransactionHistory.StatusLabel, TransactionHistory.ListId, TransactionHistory.DetailId, UserTransactions.DetailId, Sidebar.RegionLabel and Profile.RoleBadgeOf therefore differ from the page for non-ASCII letters. The lemma Profile.RoleBadgeIgnoresCase holds only for this mapping: in JavaScript 'admın' (dotless ı) upper-cases to 'ADMIN' and so earns the admin badge, while 'admın' itself does not. Likewise TransactionHistory.LabelAndColourAgree: 'ſuccess' (long s) is left as is by `toLowerCase`, so its colour is the neutral one, while `toUpperCase` labels it 'SUCCESS'; 'faıled' behaves the same way. String order and lengths are by code point rather than UTF-16 unit.
- `encodeURIComponent`, `JSON.parse`, `Date.now()` and the translator are opaque parameters. Date parsing and locale formatting are not modelled; `toFixed(2)` is modelled on exact reals (TransactionHistory.Hundredths), not on the binary double the page rounds. Dates are integers, so a `NaN` date and its effect on the inquiry sort are out of scope.
- Profile.TranslateTimezone: keywords are matched literally, so regex metacharacters inside a keyword are not interpreted. The replacement is inserted literally too, while `String.prototype.replace` interprets `$&`, `$1` and `$$` in it (src/pages/Profile.jsx:397).
- Support.jsx `getStatusColor` (lines 82-89) is presentation only.
- The asynchronous interleaving of React state updates is modelled only for the upload race. `loadHistory` and other list reloads are results passed in.
- DocumentChat.FinishUploadAsWritten: an empty message list at the end of an upload (a TypeError in the source) cannot arise after `StartUpload`, and is not modelled.
- LiveCall.ProcessQuery: the recognition stop, the speech output and the system prompt are effects, not state. The request itself is not modelled: its reply is a parameter. As written (lines 186-210) it also carries the history and the language of the first render, that is `[]` and the language at mount, rather than the current ones.
- LiveCall.ProcessQuery: speech output is assumed to work. In a browser without `speechSynthesis`, `speakResponse` (line 170) throws before the history update at lines 173-177, so the page keeps the history and shows "Connection error."; the model appends the turns. The start branch of LiveCall.ToggleListening reads the same object at line 217.
- LiveCall.ToggleListening: without recognition support the start throws at line 220. The model counts the speech cancel and the transcript clear queued before the throw (lines 217-219) as done, and listening as unchanged.
- LanguageSwitcher.GetNativeName: keys inherited from `Object.prototype` (such as "constructor") are not modelled; the same holds for Profile.GetNativeName (src/pages/Profile.jsx:388), for LiveCall.SpeechLanguage (`langMap[language]`, src/Components/LiveAI.jsx:108) and for the legacy-text lookup of Notifications.DirectTranslation (src/pages/Notifications.jsx:79), where such a key yields a function rather than the fallback. The in-place mutation by `sort()` is modelled as its result.
- TransactionHistory.PlatformFee: amounts are exact reals, not IEEE doubles.
- TransactionHistory.ShownSharesAddUp: its "one paisa more when odd" holds only on exact halves. On the page's doubles the half of an odd amount can fall just below the tie: 1.15 is stored as 1.1499999999999999…, so both shares show 0.57 and add up to 1.14, one paisa less (0.03 and 1.99 behave the same way, while 1.01 shows 0.51 + 0.51). TransactionHistory.ShownSharesWithinOnePaisa states what holds for either rounding.

## Findings

| source | as written | input that shows it | evidently intended | confidence | as-written member | corrected member |
|---|---|---|---|---|---|---|
| src/pages/Notifications.jsx:98 | `.replace(/^\.\|.$/g, '')`: the unescaped `.` strips the last character of every agent name | "A user has subscribed to 'Manychats'" is shown with 'Manychat' | strip a trailing dot only (`\.$`) | high, not executed | Notifications.ManychatsBecomesManychat | Notifications.AgentNameRoundTrip |
| src/pages/Profile.jsx:85,102-105 | localStorage receives the toggled settings before the save. A failed save reverts only the in-memory copy | default settings, toggle 'twoFactor' with a token, the save fails: shown enabled, stored disabled | the stored copy reverts with the shown one | medium, not executed | Profile.StoredCopyGoesStale | Profile.ToggleSetting |
| src/Components/LiveAI.jsx:186-210 | `recognition.onresult` is installed once (the effect depends only on the stable `captureFrame`), so it always runs the first render's `processQuery`, which saw `isVideoActive` as `true` | switch the video off, then speak: the user turn still carries the captured frame | attach a frame only while the video is on | medium, not executed | LiveCall.FrameSentWithVideoOff | LiveCall.ImagesOnlyWithVideo |
| src/agents/AIBASE/AiBaseChat.jsx:139-150 | the upload result rewrites the last message of the list | upload "a.pdf", send "hi" and receive "hello" before the upload ends: "hello" is replaced and the placeholder stays | rewrite the placeholder message itself | medium, not executed | DocumentChat.AnswerOverwrittenDuringUpload | DocumentChat.InterleavedUploadKeepsOthers |
