/** The profile page: account settings, password change, avatar upload,
    preference sections, the role badge and the display helpers for
    language and time-zone names. */
module Profile {

  import opened Common
  import opened Text

  // ---------------------------------------------------------------------
  // Settings toggles

  /** The settings object; a key that is absent reads as `undefined`. */
  type Settings = map<string, bool>

  /** `settings[key]` as a truth value. */
  predicate Flag(s: Settings, key: string)
  {
    key in s && s[key]
  }

  /** The settings used when nothing is stored yet. */
  const DefaultSettings: Settings :=
    map["emailNotif" := true, "pushNotif" := true, "publicProfile" := true, "twoFactor" := true]

  /** `{ ...s, [key]: !s[key] }`. */
  function Toggled(s: Settings, key: string): (r: Settings)
    ensures key in r && r[key] == !Flag(s, key)
    ensures forall k :: k != key ==> (k in r <==> k in s)
    ensures forall k :: k != key && k in s ==> r[k] == s[k]
  {
    s[key := !Flag(s, key)]
  }

  /** Toggling the same key twice gives back every flag. */
  lemma ToggledTwice(s: Settings, key: string, k: string)
    ensures Flag(Toggled(Toggled(s, key), key), k) == Flag(s, k)
  {
  }

  /** The settings on screen and the copy kept in local storage. */
  datatype SettingsState = SettingsState(shown: Settings, stored: Settings)

  /** `toggleSetting` as written: the toggled settings are shown and stored
      at once; the save is attempted only with a token, and a failed save
      reverts what is shown but not the stored copy. */
  function ToggleSettingAsWritten(st: SettingsState, key: string, hasToken: bool, save: ApiOutcome): (r: SettingsState)
    ensures r.stored == Toggled(st.shown, key)
    ensures hasToken && save == Failed ==> r.shown == st.shown
    ensures !(hasToken && save == Failed) ==> r.shown == Toggled(st.shown, key)
  {
    var newState := Toggled(st.shown, key);
    if hasToken && save == Failed then SettingsState(st.shown, newState)
    else SettingsState(newState, newState)
  }

  /** After a failed save the screen shows two-factor authentication on
      while the stored copy, which the page reads on its next mount, says
      off. */
  lemma StoredCopyGoesStale()
    ensures var r := ToggleSettingAsWritten(SettingsState(DefaultSettings, DefaultSettings), "twoFactor", true, Failed);
      Flag(r.shown, "twoFactor") && !Flag(r.stored, "twoFactor")
  {
  }

  /** `toggleSetting` with the revert applied to both copies. */
  function ToggleSetting(st: SettingsState, key: string, hasToken: bool, save: ApiOutcome): (r: SettingsState)
    ensures r.stored == r.shown
    ensures hasToken && save == Failed ==> r.shown == st.shown
    ensures !(hasToken && save == Failed) ==>
      && Flag(r.shown, key) == !Flag(st.shown, key)
      && forall k :: k != key ==> Flag(r.shown, k) == Flag(st.shown, k)
  {
    if hasToken && save == Failed then SettingsState(st.shown, st.shown)
    else var newState := Toggled(st.shown, key); SettingsState(newState, newState)
  }

  /** Two saved toggles of one key restore every flag on screen. */
  lemma ToggleSettingTwiceRestores(st: SettingsState, key: string, hasToken: bool, k: string)
    ensures var r := ToggleSetting(ToggleSetting(st, key, hasToken, Succeeded), key, hasToken, Succeeded);
      Flag(r.shown, k) == Flag(st.shown, k)
  {
    ToggledTwice(st.shown, key, k);
  }

  // ---------------------------------------------------------------------
  // Password change

  datatype PasswordForm = PasswordForm(current: string, newPassword: string, confirm: string)

  const EmptyPasswordForm := PasswordForm("", "", "")
  const MinPasswordLength := 6

  datatype PasswordCheck = Mismatch | TooShort | Proceed

  /** The checks of `handlePasswordChange`, mismatch first. */
  function CheckPassword(f: PasswordForm): (c: PasswordCheck)
    ensures c == Mismatch <==> f.newPassword != f.confirm
    ensures c == TooShort <==> f.newPassword == f.confirm && |f.newPassword| < MinPasswordLength
    ensures c == Proceed <==> f.newPassword == f.confirm && |f.newPassword| >= MinPasswordLength
  {
    if f.newPassword != f.confirm then Mismatch
    else if |f.newPassword| < MinPasswordLength then TooShort
    else Proceed
  }

  datatype PasswordModal = PasswordModal(open: bool, form: PasswordForm)

  /** `handlePasswordChange`: only a request that passes the checks and
      succeeds closes the modal and clears the form. */
  function HandlePasswordChange(m: PasswordModal, request: ApiOutcome): (r: PasswordModal)
    ensures CheckPassword(m.form) == Proceed && request == Succeeded ==> r == PasswordModal(false, EmptyPasswordForm)
    ensures CheckPassword(m.form) != Proceed || request == Failed ==> r == m
  {
    if CheckPassword(m.form) == Proceed && request == Succeeded then PasswordModal(false, EmptyPasswordForm)
    else m
  }

  /** An open modal closes only for a matching new password of at least six
      characters. */
  lemma ClosedModalMeansValidPassword(m: PasswordModal, request: ApiOutcome)
    requires m.open && !HandlePasswordChange(m, request).open
    ensures m.form.newPassword == m.form.confirm && |m.form.newPassword| >= MinPasswordLength
  {
  }

  // ---------------------------------------------------------------------
  // Avatar upload

  datatype AvatarFile = AvatarFile(mime: string, size: nat)

  const MaxAvatarBytes := 50 * 1024 * 1024

  datatype AvatarCheck = NoFile | NotAnImage | TooLarge | LoginRequired | StartUpload

  /** The checks of `handleAvatarUpload`, in order: a file was picked, it is
      an image, it is at most 50 MB, and a user with a token is present. */
  function CheckAvatar(file: Option<AvatarFile>, hasUser: bool, hasToken: bool): (c: AvatarCheck)
    ensures c == NoFile <==> file.None?
    ensures c == NotAnImage <==> file.Some? && !StartsWith(file.value.mime, "image/")
    ensures c == TooLarge <==>
      file.Some? && StartsWith(file.value.mime, "image/") && file.value.size > MaxAvatarBytes
    ensures c == LoginRequired <==>
      && file.Some? && StartsWith(file.value.mime, "image/") && file.value.size <= MaxAvatarBytes
      && !(hasUser && hasToken)
  {
    match file
    case None => NoFile
    case Some(f) =>
      if !StartsWith(f.mime, "image/") then NotAnImage
      else if f.size > MaxAvatarBytes then TooLarge
      else if !hasUser || !hasToken then LoginRequired
      else StartUpload
  }

  /** The upload starts exactly for an image of at most 50 MB picked by a
      signed-in user. */
  lemma AvatarUploadStarts(file: Option<AvatarFile>, hasUser: bool, hasToken: bool)
    ensures CheckAvatar(file, hasUser, hasToken) == StartUpload <==>
      && file.Some? && StartsWith(file.value.mime, "image/")
      && file.value.size <= MaxAvatarBytes && hasUser && hasToken
  {
  }

  /** `${url}${separator}t=${now}`: the separator is '&' when the URL
      already has a query string and '?' otherwise. */
  function CacheBust(url: string, now: nat): (r: string)
    ensures |r| > |url| + 2 && r[..|url|] == url
  {
    url + [if Contains(url, "?") then '&' else '?'] + "t=" + NatToString(now)
  }

  /** A cache-busted URL is the original URL, the right separator, `t=` and
      the decimal timestamp, which reads back as `now`; the result always
      has a query string. */
  lemma CacheBustParts(url: string, now: nat)
    ensures var r := CacheBust(url, now);
      && r[|url|] == (if Contains(url, "?") then '&' else '?')
      && r[|url| + 1..|url| + 3] == "t="
      && AllDigits(r[|url| + 3..]) && ParseDigits(r[|url| + 3..]) == now
      && Contains(r, "?")
  {
    var r := CacheBust(url, now);
    assert r[|url| + 3..] == NatToString(now);
    ParseNatToString(now);
    if Contains(url, "?") {
      var i := IndexOf(url, "?").value;
      assert r[i..i + 1] == url[i..i + 1];
      OccurrenceIsContained(r, "?", i);
    } else {
      assert r[|url|..|url| + 1] == "?";
      OccurrenceIsContained(r, "?", |url|);
    }
  }

  /** The new avatar after a successful upload: the response's `avatarUrl`,
      else its `avatar`, cache-busted with the time `now`; `None` when the
      response carries neither (the handler then reports an error and the
      user keeps the old avatar). */
  function UploadedAvatar(avatarUrl: Option<string>, avatar: Option<string>, now: nat): (r: Option<string>)
    ensures r.None? <==> !Truthy(avatarUrl) && !Truthy(avatar)
    ensures Truthy(avatarUrl) ==> r == Some(CacheBust(avatarUrl.value, now))
    ensures !Truthy(avatarUrl) && Truthy(avatar) ==> r == Some(CacheBust(avatar.value, now))
  {
    var url := OrElse(avatarUrl, avatar.GetOr(""));
    if url == [] then None else Some(CacheBust(url, now))
  }

  // ---------------------------------------------------------------------
  // Preference sections

  /** The open preference section (at most one) and the selection mode. */
  datatype Preferences = Preferences(active: Option<string>, selectionMode: string)

  /** `handlePreferenceClick`. */
  function PreferenceClick(p: Preferences, key: string): (r: Preferences)
    ensures r.active == if p.active == Some(key) then None else Some(key)
    ensures key == "language" ==> r.selectionMode == "language"
    ensures key != "language" ==> r.selectionMode == p.selectionMode
  {
    Preferences(if p.active == Some(key) then None else Some(key),
                if key == "language" then "language" else p.selectionMode)
  }

  /** A second click on the same section closes it if the first opened it,
      and reopens it if the first closed it. */
  lemma PreferenceClickTwice(p: Preferences, key: string)
    ensures PreferenceClick(PreferenceClick(p, key), key).active ==
      if p.active == Some(key) then Some(key) else None
  {
  }

  // ---------------------------------------------------------------------
  // Role badge

  datatype RoleBadge = AdminBadge | DeveloperBadge | UserBadge

  /** The badge for `user.role`, compared case-insensitively. */
  function RoleBadgeOf(role: Option<string>): (b: RoleBadge)
    ensures b == AdminBadge <==> role.Some? && ToLower(role.value) == "admin"
    ensures b == DeveloperBadge <==> role.Some? && ToLower(role.value) == "developer"
    ensures role.None? ==> b == UserBadge
  {
    match role
    case None => UserBadge
    case Some(s) =>
      if ToLower(s) == "admin" then AdminBadge
      else if ToLower(s) == "developer" then DeveloperBadge
      else UserBadge
  }

  /** The badge does not depend on letter case. */
  lemma RoleBadgeIgnoresCase(role: string)
    ensures RoleBadgeOf(Some(ToUpper(role))) == RoleBadgeOf(Some(role))
  {
    LowerOfUpper(role);
  }

  // ---------------------------------------------------------------------
  // Native language names

  /** The page's table from English language names to native names. */
  const NativeLanguageNames: seq<(string, string)> := [
    ("English", "English - EN"),
    ("Hindi", "हिन्दी - HI"),
    ("Spanish", "Español - ES"),
    ("French", "Français - FR"),
    ("German", "Deutsch - DE"),
    ("Arabic", "العربية - AR"),
    ("Mandarin Chinese", "中文 (简体) - ZH"),
    ("Portuguese", "Português - PT"),
    ("Russian", "Русский - RU"),
    ("Japanese", "日本語 - JA"),
    ("Korean", "한국어 - KO"),
    ("Tamil", "தமிழ் - TA"),
    ("Bengali", "বাংলা - BN"),
    ("Gujarati", "ગુજરાતી - GU"),
    ("Turkish", "Türkçe - TR")
  ]

  /** `getNativeName`: the table entry, or the input when there is none. */
  function GetNativeName(lang: string): (r: string)
    ensures Lookup(NativeLanguageNames, lang).None? ==> r == lang
    ensures Lookup(NativeLanguageNames, lang).Some? ==> r == Lookup(NativeLanguageNames, lang).value
  {
    assert forall i :: 0 <= i < |NativeLanguageNames| ==> NativeLanguageNames[i].1 != [];
    OrElse(Lookup(NativeLanguageNames, lang), lang)
  }

  /** No native name is itself a key of the table, so looking a name up a
      second time changes nothing. */
  lemma GetNativeNameIdempotent(lang: string)
    ensures GetNativeName(GetNativeName(lang)) == GetNativeName(lang)
  {
    var t := NativeLanguageNames;
    assert forall i, j :: 0 <= i < |t| && 0 <= j < |t| ==> t[i].1 != t[j].0;
  }

  // ---------------------------------------------------------------------
  // Time-zone names

  /** The characters of `\w`. */
  predicate IsWordChar(c: char)
  {
    'a' <= c <= 'z' || 'A' <= c <= 'Z' || '0' <= c <= '9' || c == '_'
  }

  /** `\b` at position `i`: a word character on exactly one side. */
  predicate IsWordBoundary(s: string, i: int)
  {
    (0 < i <= |s| && IsWordChar(s[i - 1])) != (0 <= i < |s| && IsWordChar(s[i]))
  }

  /** `\bw\b` matches at position `i`. */
  predicate WholeWordAt(s: string, w: string, i: int)
  {
    OccursAt(s, w, i) && IsWordBoundary(s, i) && IsWordBoundary(s, i + |w|)
  }

  /** `s.slice(i).replace(/\bw\b/g, rep)` with `w` taken literally, where the
      boundaries look at the whole of `s`. An empty match is replaced and the
      search moves on by one character. */
  function ReplaceWordsFrom(s: string, w: string, rep: string, i: nat): (r: string)
    requires i <= |s|
    decreases |s| - i, if WholeWordAt(s, w, i) then 0 else 1
  {
    if WholeWordAt(s, w, i) then
      if |w| > 0 then rep + ReplaceWordsFrom(s, w, rep, i + |w|)
      else if i < |s| then rep + [s[i]] + ReplaceWordsFrom(s, w, rep, i + 1)
      else rep
    else if i < |s| then
      [s[i]] + ReplaceWordsFrom(s, w, rep, i + 1)
    else []
  }

  /** `s.replace(new RegExp('\\b' + w + '\\b', 'g'), rep)`. */
  function ReplaceWords(s: string, w: string, rep: string): string
  {
    ReplaceWordsFrom(s, w, rep, 0)
  }

  /** Replacing a word by itself changes nothing. */
  lemma {:induction false} ReplaceWordsFromSelf(s: string, w: string, i: nat)
    requires i <= |s|
    ensures ReplaceWordsFrom(s, w, w, i) == s[i..]
    decreases |s| - i, if WholeWordAt(s, w, i) then 0 else 1
  {
    var r := ReplaceWordsFrom(s, w, w, i);
    if WholeWordAt(s, w, i) {
      if |w| > 0 {
        assert r == w + ReplaceWordsFrom(s, w, w, i + |w|);
        ReplaceWordsFromSelf(s, w, i + |w|);
        assert s[i..i + |w|] == w;
        assert s[i..] == s[i..i + |w|] + s[i + |w|..];
      } else if i < |s| {
        assert r == w + [s[i]] + ReplaceWordsFrom(s, w, w, i + 1);
        ReplaceWordsFromSelf(s, w, i + 1);
        assert s[i..] == [s[i]] + s[i + 1..];
      }
    } else if i < |s| {
      assert r == [s[i]] + ReplaceWordsFrom(s, w, w, i + 1);
      ReplaceWordsFromSelf(s, w, i + 1);
      assert s[i..] == [s[i]] + s[i + 1..];
    }
  }

  /** Where the word never stands alone, nothing is replaced. */
  lemma {:induction false} NoWholeWordUnchanged(s: string, w: string, rep: string, i: nat)
    requires i <= |s|
    requires forall j :: i <= j <= |s| ==> !WholeWordAt(s, w, j)
    ensures ReplaceWordsFrom(s, w, rep, i) == s[i..]
    decreases |s| - i
  {
    if i < |s| {
      assert !WholeWordAt(s, w, i);
      NoWholeWordUnchanged(s, w, rep, i + 1);
      assert s[i..] == [s[i]] + s[i + 1..];
    } else {
      assert !WholeWordAt(s, w, i);
    }
  }

  /** A word inside a longer word is left alone: "India" is not replaced in
      "Indian Time". */
  lemma WholeWordsOnly()
    ensures ReplaceWords("Indian Time", "India", "IN") == "Indian Time"
  {
    var s := "Indian Time";
    forall j | 0 <= j <= |s| ensures !WholeWordAt(s, "India", j) {
      if j == 0 {
        assert !IsWordBoundary(s, 5);
      }
    }
    NoWholeWordUnchanged(s, "India", "IN", 0);
  }

  /** A word standing on its own is replaced: "India Time" becomes
      "IN Time". */
  lemma StandaloneWordReplaced()
    ensures ReplaceWords("India Time", "India", "IN") == "IN Time"
  {
    var t := "India Time";
    assert WholeWordAt(t, "India", 0);
    assert forall j :: 5 <= j <= |t| ==> !WholeWordAt(t, "India", j);
    NoWholeWordUnchanged(t, "India", "IN", 5);
  }

  /** The keyword replacements applied in table order. */
  function ApplyKeywords(tz: string, keywords: seq<(string, string)>): string
    decreases |keywords|
  {
    if keywords == [] then tz
    else ApplyKeywords(ReplaceWords(tz, keywords[0].0, keywords[0].1), keywords[1..])
  }

  /** A keyword added at the end of the table is applied after all others. */
  lemma {:induction false} ApplyKeywordsSnoc(tz: string, keywords: seq<(string, string)>, en: string, local: string)
    ensures ApplyKeywords(tz, keywords + [(en, local)]) == ReplaceWords(ApplyKeywords(tz, keywords), en, local)
    decreases |keywords|
  {
    if keywords != [] {
      assert (keywords + [(en, local)])[1..] == keywords[1..] + [(en, local)];
      ApplyKeywordsSnoc(ReplaceWords(tz, keywords[0].0, keywords[0].1), keywords[1..], en, local);
    }
  }

  /** `translateTimezone`. `keywords` is the translator's keyword table as
      its entries in order, or `None` when the translation is missing or not
      an object. */
  function TranslateTimezone(tz: string, keywords: Option<seq<(string, string)>>): (r: string)
    ensures keywords.None? ==> r == tz
    ensures keywords == Some([]) ==> r == tz
  {
    match keywords
    case None => tz
    case Some(kw) => ApplyKeywords(tz, kw)
  }

  /** A keyword table that maps every word to itself leaves the name as it
      was. */
  lemma {:induction false} IdentityKeywordsKeepName(tz: string, kw: seq<(string, string)>)
    requires forall i :: 0 <= i < |kw| ==> kw[i].0 == kw[i].1
    ensures TranslateTimezone(tz, Some(kw)) == tz
  {
    if kw != [] {
      ReplaceWordsFromSelf(tz, kw[0].0, 0);
      IdentityKeywordsKeepName(tz, kw[1..]);
    }
  }
}
