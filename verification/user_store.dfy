/** The stored user: the avatar URL derived from the e-mail address, the
    clean-up applied to every user read or written, and reading the user
    back from local storage. */
module UserStore {

  import opened Common
  import opened Text

  datatype User = User(id: Option<string>, name: Option<string>, email: Option<string>,
                       avatar: Option<string>, role: Option<string>, token: Option<string>)

  /** The generated picture used when the avatar service has none: the
      encoded name, or "User". `encode` is `encodeURIComponent`. */
  function FallbackUrl(name: Option<string>, encode: string -> string): string
  {
    "https://ui-avatars.com/api/?name=" + encode(OrElse(name, "User")) + "&background=random&color=fff"
  }

  /** The address is a Gmail address, in any letter case. */
  predicate IsGmail(email: string)
  {
    Contains(ToLower(email), "@gmail.com")
  }

  /** `getAvatarUrl`: nothing without a user or an e-mail address; the
      Google lookup for Gmail addresses and the generic lookup otherwise,
      both falling back to the generated picture. */
  function GetAvatarUrl(user: Option<User>, encode: string -> string): (r: string)
    ensures !(user.Some? && Truthy(user.value.email)) ==> r == ""
    ensures user.Some? && Truthy(user.value.email) && IsGmail(user.value.email.value) ==>
      r == "https://unavatar.io/google/" + user.value.email.value
           + "?fallback=" + encode(FallbackUrl(user.value.name, encode))
    ensures user.Some? && Truthy(user.value.email) && !IsGmail(user.value.email.value) ==>
      r == "https://unavatar.io/" + user.value.email.value
           + "?fallback=" + encode(FallbackUrl(user.value.name, encode))
  {
    if user.None? || !Truthy(user.value.email) then ""
    else
      var email := user.value.email.value;
      var fallback := encode(FallbackUrl(user.value.name, encode));
      if IsGmail(email) then "https://unavatar.io/google/" + email + "?fallback=" + fallback
      else "https://unavatar.io/" + email + "?fallback=" + fallback
  }

  /** A user with an e-mail address always gets an avatar-service URL that
      names the address; a user without one gets the empty string. */
  lemma AvatarUrlNamesEmail(user: User, encode: string -> string)
    ensures var r := GetAvatarUrl(Some(user), encode);
      && (r == [] <==> !Truthy(user.email))
      && (Truthy(user.email) ==>
            var base := if IsGmail(user.email.value) then "https://unavatar.io/google/" else "https://unavatar.io/";
            StartsWith(r, base + user.email.value + "?fallback="))
  {
    var r := GetAvatarUrl(Some(user), encode);
    if Truthy(user.email) {
      var base := if IsGmail(user.email.value) then "https://unavatar.io/google/" else "https://unavatar.io/";
      var head := base + user.email.value + "?fallback=";
      assert r == head + encode(FallbackUrl(user.name, encode));
      assert r[..|head|] == head;
    }
  }

  /** The Gmail test ignores letter case. */
  lemma GmailIgnoresCase(email: string)
    ensures IsGmail(ToUpper(email)) == IsGmail(email)
  {
    LowerOfUpper(email);
  }

  /** The stored avatar is to be replaced: it is missing, a Gravatar link,
      the bundled default picture or any other site-relative path. */
  predicate NeedsAvatar(avatar: Option<string>)
  {
    || !Truthy(avatar)
    || Contains(avatar.value, "gravatar.com")
    || avatar.value == "/User.jpeg"
    || StartsWith(avatar.value, "/")
  }

  /** The test for the bundled default picture is covered by the test for
      site-relative paths. */
  lemma DefaultPictureIsRelative()
    ensures StartsWith("/User.jpeg", "/")
  {
  }

  /** `processUser`: replaces an avatar that needs replacing by the derived
      URL and leaves everything else as it was. */
  function ProcessUser(user: Option<User>, encode: string -> string): (r: Option<User>)
    ensures user.None? <==> r.None?
    ensures user.Some? ==> r.value == user.value.(avatar := r.value.avatar)
    ensures user.Some? && NeedsAvatar(user.value.avatar) ==> r.value.avatar == Some(GetAvatarUrl(user, encode))
    ensures user.Some? && !NeedsAvatar(user.value.avatar) ==> r.value.avatar == user.value.avatar
  {
    match user
    case None => None
    case Some(u) =>
      if NeedsAvatar(u.avatar) then Some(u.(avatar := Some(GetAvatarUrl(user, encode)))) else user
  }

  /** Processing a processed user changes nothing more: the derived URL
      depends only on the name and address, which processing keeps. */
  lemma ProcessUserIdempotent(user: Option<User>, encode: string -> string)
    ensures ProcessUser(ProcessUser(user, encode), encode) == ProcessUser(user, encode)
  {
    if user.Some? {
      var p := ProcessUser(user, encode);
      assert p.value.name == user.value.name && p.value.email == user.value.email;
      assert GetAvatarUrl(p, encode) == GetAvatarUrl(user, encode);
    }
  }

  /** What `JSON.parse` makes of the stored text: it throws, it yields a
      falsy value, a truthy value that is not an object (a number, string
      or `true`), or a user object. */
  datatype Parsed = Malformed | FalsyValue | Primitive | ParsedUser(user: User)

  /** `getUser`, returning the user read and whether the stored entry was
      removed. `item` is the stored text and `parse` stands for `JSON.parse`.
      Module code is strict, so storing an avatar on a primitive throws and
      takes the same path as unparsable text. */
  function GetUser(item: Option<string>, parse: string -> Parsed, encode: string -> string): (r: (Option<User>, bool))
    ensures !Truthy(item) || item.value == "undefined" || item.value == "null" ==> r == (None, false)
    ensures r.0.Some? <==> Truthy(item) && item.value != "undefined" && item.value != "null" && parse(item.value).ParsedUser?
    ensures r.0.Some? ==> r.0 == ProcessUser(Some(parse(item.value).user), encode)
    ensures r.1 <==> Truthy(item) && item.value != "undefined" && item.value != "null"
                     && (parse(item.value).Malformed? || parse(item.value).Primitive?)
  {
    if !Truthy(item) || item.value == "undefined" || item.value == "null" then (None, false)
    else
      match parse(item.value)
      case Malformed => (None, true)
      case Primitive => (None, true)
      case FalsyValue => (None, false)
      case ParsedUser(u) => (ProcessUser(Some(u), encode), false)
  }

  /** A user read back from storage is already processed, and an entry is
      removed only when no user is returned. */
  lemma GetUserIsProcessed(item: Option<string>, parse: string -> Parsed, encode: string -> string)
    ensures var r := GetUser(item, parse, encode);
      ProcessUser(r.0, encode) == r.0 && (r.1 ==> r.0.None?)
  {
    var r := GetUser(item, parse, encode);
    if r.0.Some? {
      ProcessUserIdempotent(Some(parse(item.value).user), encode);
    }
  }
}
