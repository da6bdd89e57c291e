/** The user chip in the navigation bar: whether it shows, the name it uses
    and the initial in its avatar. */
module UserDropdown {

  import opened Common
  import opened Text
  import Sidebar
  import UserStore

  datatype ChipUser = ChipUser(name: Option<string>, email: Option<string>)

  /** The chip renders nothing without a user or without an email. */
  predicate Rendered(user: Option<ChipUser>)
  {
    user.Some? && Truthy(user.value.email)
  }

  /** The chip as seen from the stored user. */
  function ChipOf(user: Option<UserStore.User>): Option<ChipUser>
  {
    match user
    case None => None
    case Some(u) => Some(ChipUser(u.name, u.email))
  }

  /** A user without an email gets no chip, and the chip shows exactly
      when the store can build an avatar address for the user. */
  lemma ChipShownIffAvatar(user: Option<UserStore.User>, encode: string -> string)
    ensures !Rendered(None)
    ensures user.Some? && !Truthy(user.value.email) ==> !Rendered(ChipOf(user))
    ensures Rendered(ChipOf(user)) <==> UserStore.GetAvatarUrl(user, encode) != ""
  {
    if user.Some? {
      UserStore.AvatarUrlNamesEmail(user.value, encode);
    }
  }

  /** `getDisplayName`: "U" without a name, the translated admin name for
      the name 'Admin', the name itself otherwise. */
  function DisplayName(u: ChipUser, adminName: string): (r: string)
    ensures !Truthy(u.name) ==> r == "U"
    ensures Truthy(u.name) && u.name.value == "Admin" ==> r == adminName
    ensures Truthy(u.name) && u.name.value != "Admin" ==> r == u.name.value
  {
    if !Truthy(u.name) then "U"
    else if u.name.value == "Admin" then adminName
    else u.name.value
  }

  /** The name after the greeting: the whole display name for the admin,
      otherwise its first space-separated word, or 'User' when that word is
      empty. */
  function GreetingName(u: ChipUser, adminName: string): (r: string)
    ensures Truthy(u.name) && u.name.value == "Admin" ==> r == adminName
    ensures !(Truthy(u.name) && u.name.value == "Admin") ==> r != [] && !Contains(r, " ")
    ensures Truthy(u.name) && u.name.value != "Admin" && u.name.value[0] == ' ' ==> r == "User"
  {
    var shown := DisplayName(u, adminName);
    if Truthy(u.name) && u.name.value == "Admin" then shown
    else
      var first := SplitHead(shown, " ");
      if first == [] then
        assert !Contains("User", " ") by { MissingFirstCharNotContained("User", " "); }
        "User"
      else first
  }

  /** The avatar's letter: the display name's first character, upper-cased. */
  function Initial(u: ChipUser, adminName: string): (r: string)
    ensures |r| <= 1
    ensures DisplayName(u, adminName) != [] ==> r == [UpperChar(DisplayName(u, adminName)[0])]
  {
    UpperInitial(DisplayName(u, adminName))
  }

  /** For an ordinary name that does not start with a space, the greeting
      is the name up to its first space, and the avatar shows that word's
      first letter. */
  lemma GreetingStartsName(u: ChipUser, adminName: string)
    requires Truthy(u.name) && u.name.value != "Admin" && u.name.value[0] != ' '
    ensures var g := GreetingName(u, adminName);
      StartsWith(u.name.value, g) && (|g| < |u.name.value| ==> u.name.value[|g|] == ' ')
    ensures Initial(u, adminName) == [UpperChar(GreetingName(u, adminName)[0])]
  {
    var n := u.name.value;
    var first := SplitHead(n, " ");
    if |first| < |n| {
      assert OccursAt(n, " ", |first|);
      assert n[|first|..|first| + 1] == " ";
    }
  }

  /** A user without a name is greeted as "U" with the letter "U". */
  lemma NamelessUser(u: ChipUser, adminName: string)
    requires !Truthy(u.name)
    ensures GreetingName(u, adminName) == "U" && Initial(u, adminName) == "U"
  {
    assert IndexOf("U", " ") == None by { MissingFirstCharNotContained("U", " "); }
  }

  /** The chip's letter and the sidebar's letter agree for every user but
      the admin, whose chip shows the translated name's initial; and the
      letter is the name's first character up to case. */
  lemma InitialAgreesWithSidebar(u: ChipUser, adminName: string)
    requires !(Truthy(u.name) && u.name.value == "Admin")
    ensures Initial(u, adminName) == Sidebar.AvatarInitial(u.name)
    ensures Truthy(u.name) ==> LowerChar(Initial(u, adminName)[0]) == LowerChar(u.name.value[0])
  {
  }
}
