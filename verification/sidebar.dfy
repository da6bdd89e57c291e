/** The side bar's derived labels: the unread-notification badge, the
    region and language indicator, and the avatar initial. */
module Sidebar {

  import opened Common
  import opened Text
  import opened Sorting
  import opened Notifications

  /** The test `!n.isRead`. */
  function Unread(): Notification -> bool
  {
    (n: Notification) => !n.isRead
  }

  /** The unread count; `None` stands for a notifications value that is not
      an array. */
  function UnreadCount(notes: Option<seq<Notification>>): (count: nat)
    ensures notes.None? ==> count == 0
    ensures notes.Some? ==> count == |Filter(notes.value, Unread())| && count <= |notes.value|
  {
    match notes
    case None => 0
    case Some(list) => Count(list, Unread())
  }

  /** The badge is shown only for a positive count. */
  predicate BadgeShown(count: nat)
  {
    count > 0
  }

  /** The badge shows exactly when the list holds an unread notification;
      without a list it never shows. */
  lemma BadgeShownIffUnread(notes: Option<seq<Notification>>)
    ensures notes.None? ==> !BadgeShown(UnreadCount(notes))
    ensures notes.Some? ==>
      (BadgeShown(UnreadCount(notes)) <==> exists i :: 0 <= i < |notes.value| && !notes.value[i].isRead)
  {
    if notes.Some? {
      UnreadCountPositive(notes.value);
    }
  }

  /** Some entry counts iff some entry is unread. */
  lemma {:induction false} UnreadCountPositive(list: seq<Notification>)
    ensures Count(list, Unread()) > 0 <==> exists i :: 0 <= i < |list| && !list[i].isRead
  {
    if list != [] {
      UnreadCountPositive(list[1..]);
      if exists i :: 0 <= i < |list| && !list[i].isRead {
        var i :| 0 <= i < |list| && !list[i].isRead;
        if i > 0 {
          assert !list[1..][i - 1].isRead;
        }
      }
      if exists j :: 0 <= j < |list[1..]| && !list[1..][j].isRead {
        var j :| 0 <= j < |list[1..]| && !list[1..][j].isRead;
        assert !list[j + 1].isRead;
      }
    }
  }

  /** The badge text: the exact count up to 9, '9+' beyond. */
  function BadgeText(count: nat): (r: string)
    ensures count > 9 <==> r == "9+"
  {
    if count > 9 then "9+" else NatToString(count)
  }

  /** Up to 9 the badge is a single digit that reads back as the count. */
  lemma BadgeTextReadsBack(count: nat)
    requires count <= 9
    ensures |BadgeText(count)| == 1 && ParseDigits(BadgeText(count)) == count
  {
    ParseNatToString(count);
  }

  /** Unread entries with an id other than `id`. */
  function UnreadOther(id: string): Notification -> bool
  {
    (n: Notification) => !n.isRead && n.id != id
  }

  /** After marking `id` read, the unread entries are exactly the unread
      entries with another id: the count drops by the unread entries with
      that id and by nothing else. */
  lemma {:induction false} MarkAsReadLowersCount(list: seq<Notification>, id: string)
    ensures Count(MarkAsRead(list, id, Succeeded), Unread()) == Count(list, UnreadOther(id))
    ensures Count(list, UnreadOther(id)) <= Count(list, Unread())
  {
    if list != [] {
      var m := MarkAsRead(list, id, Succeeded);
      assert m[1..] == MarkAsRead(list[1..], id, Succeeded);
      MarkAsReadLowersCount(list[1..], id);
    }
  }

  /** Deleting never adds to the unread count. */
  lemma {:induction false} DeleteLowersCount(list: seq<Notification>, id: string)
    ensures Count(DeleteNotification(list, id, Succeeded), Unread()) == Count(list, UnreadOther(id))
  {
    if list != [] {
      DeleteLowersCount(list[1..], id);
      var rest := Filter(list[1..], OtherThan(id));
      var x := list[0];
      if x.id != id {
        var f := [x] + rest;
        assert Filter(list, OtherThan(id)) == f;
        assert f[0] == x && f[1..] == rest;
        assert Count(f, Unread()) == (if !x.isRead then 1 else 0) + Count(rest, Unread());
      } else {
        assert Filter(list, OtherThan(id)) == rest;
      }
      assert Count(list, UnreadOther(id)) == (if UnreadOther(id)(x) then 1 else 0) + Count(list[1..], UnreadOther(id));
    }
  }

  /** `${regionFlags[region] || 'IN'} - ${language.substring(0, 2).toUpperCase()}`;
      `flag` is the region's entry in the flag table. */
  function RegionLabel(flag: Option<string>, language: string): (r: string)
    ensures var code := OrElse(flag, "IN");
      |r| == |code| + 3 + (if |language| < 2 then |language| else 2) && r[..|code| + 3] == code + " - "
  {
    OrElse(flag, "IN") + " - " + ToUpper(FirstChars(language, 2))
  }

  /** The language part of the indicator is the first two letters of the
      language in capitals: "English" shows as "IN - EN" by default. */
  lemma RegionLabelLanguagePart(flag: Option<string>, language: string)
    ensures var r := RegionLabel(flag, language);
      var k := if |language| < 2 then |language| else 2;
      forall i :: 0 <= i < k ==> r[|r| - k + i] == UpperChar(language[i])
    ensures RegionLabel(None, "English") == "IN - EN"
  {
    assert ToUpper(FirstChars("English", 2)) == "EN";
  }

  /** The avatar initial without a picture: the first character of the
      name in capitals, or 'U' without a name. */
  function AvatarInitial(name: Option<string>): (r: string)
    ensures |r| == 1 && !IsAsciiLower(r[0])
    ensures Truthy(name) ==> r[0] == UpperChar(name.value[0])
    ensures !Truthy(name) ==> r == "U"
  {
    if Truthy(name) then UpperInitial(name.value) else "U"
  }
}
