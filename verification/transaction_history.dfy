/** The admin transaction history: status labels and colours, the shortened
    transaction ids and the split of an amount into platform fee and
    vendor earnings. */
module TransactionHistory {

  import opened Common
  import opened Text

  /** The colour classes a status can be shown in. */
  datatype StatusClass = SuccessClass | PendingClass | FailedClass | NeutralClass

  /** The class of an already lower-cased status. */
  function ClassOfLower(s: string): (c: StatusClass)
    ensures c == SuccessClass <==> s == "captured" || s == "succeeded" || s == "success"
    ensures c == PendingClass <==> s == "created" || s == "pending"
    ensures c == FailedClass <==> s == "failed"
  {
    if s == "captured" || s == "succeeded" || s == "success" then SuccessClass
    else if s == "created" || s == "pending" then PendingClass
    else if s == "failed" then FailedClass
    else NeutralClass
  }

  /** `getStatusLabel`: 'UNKNOWN' for a missing or empty status, the
      class's name for a known status in any letter case, and otherwise
      the status upper-cased. */
  function StatusLabel(status: Option<string>): (shown: string)
    ensures !Truthy(status) ==> shown == "UNKNOWN"
    ensures Truthy(status) && ClassOfLower(ToLower(status.value)) == SuccessClass ==> shown == "SUCCESS"
    ensures Truthy(status) && ClassOfLower(ToLower(status.value)) == PendingClass ==> shown == "PENDING"
    ensures Truthy(status) && ClassOfLower(ToLower(status.value)) == FailedClass ==> shown == "FAILED"
    ensures Truthy(status) && ClassOfLower(ToLower(status.value)) == NeutralClass ==> shown == ToUpper(status.value)
  {
    if !Truthy(status) then "UNKNOWN"
    else
      match ClassOfLower(ToLower(status.value))
      case SuccessClass => "SUCCESS"
      case PendingClass => "PENDING"
      case FailedClass => "FAILED"
      case NeutralClass => ToUpper(status.value)
  }

  /** `getStatusColor`, as the class it picks; a missing status is neutral. */
  function StatusColor(status: Option<string>): (c: StatusClass)
    ensures status.None? ==> c == NeutralClass
    ensures status.Some? ==> c == ClassOfLower(ToLower(status.value))
  {
    match status
    case None => NeutralClass
    case Some(s) => ClassOfLower(ToLower(s))
  }

  /** The class a label names. */
  function ClassOfLabel(shown: string): StatusClass
  {
    if shown == "SUCCESS" then SuccessClass
    else if shown == "PENDING" then PendingClass
    else if shown == "FAILED" then FailedClass
    else NeutralClass
  }

  /** The colour always agrees with the label: a status is coloured as
      success, pending or failed exactly when its label says so. */
  lemma LabelAndColourAgree(status: Option<string>)
    ensures ClassOfLabel(StatusLabel(status)) == StatusColor(status)
  {
    if Truthy(status) && ClassOfLower(ToLower(status.value)) == NeutralClass {
      var s := status.value;
      LowerOfUpper(s);
      assert ToLower("SUCCESS") == "success";
      assert ToLower("PENDING") == "pending";
      assert ToLower("FAILED") == "failed";
    }
  }

  /** The id in the list: '#' and the last 8 characters, upper-cased. */
  function ListId(id: string): (r: string)
    ensures |r| == 1 + (if |id| < 8 then |id| else 8) && r[0] == '#'
    ensures r[1..] == ToUpper(id[|id| - (|r| - 1)..])
  {
    "#" + ToUpper(LastChars(id, 8))
  }

  /** The id in the detail view: '#' and the last 12 characters, upper-cased. */
  function DetailId(id: string): (r: string)
    ensures |r| == 1 + (if |id| < 12 then |id| else 12) && r[0] == '#'
    ensures r[1..] == ToUpper(id[|id| - (|r| - 1)..])
  {
    "#" + ToUpper(LastChars(id, 12))
  }

  /** The list id, after its '#', is the tail of the detail id: both show
      the end of the same id. */
  lemma ListIdEndsDetailId(id: string)
    ensures var l, d := ListId(id), DetailId(id);
      |l| <= |d| && d[|d| - (|l| - 1)..] == l[1..]
  {
    var a, b := LastChars(id, 12), LastChars(id, 8);
    assert b == a[|a| - |b|..];
    ToUpperSuffix(a, |a| - |b|);
    var l, d := ListId(id), DetailId(id);
    assert l[1..] == ToUpper(b) && d[1..] == ToUpper(a);
    assert d[|d| - (|l| - 1)..] == d[1..][|a| - |b|..];
  }

  /** Record ids carry no capitals (they are lower-case hexadecimal), so
      lower-casing a shown id gives back the id's own tail: the short id
      loses nothing but case. */
  lemma {:induction false} ShownIdsReadBack(id: string)
    requires forall i :: 0 <= i < |id| ==> !IsAsciiUpper(id[i])
    ensures ToLower(ListId(id)[1..]) == LastChars(id, 8)
    ensures ToLower(DetailId(id)[1..]) == LastChars(id, 12)
    ensures |id| <= 8 ==> ToLower(ListId(id)[1..]) == id
  {
    forall k: nat | k <= |id|
      ensures ToLower(ToUpper(LastChars(id, k))) == LastChars(id, k)
    {
      var s := LastChars(id, k);
      forall i | 0 <= i < |s|
        ensures ToLower(ToUpper(s))[i] == s[i]
      {
        assert s[i] == id[|id| - |s| + i];
      }
    }
    assert ListId(id)[1..] == ToUpper(LastChars(id, 8));
    assert DetailId(id)[1..] == ToUpper(LastChars(id, 12));
  }

  /** The platform's share: half the amount. */
  function PlatformFee(amount: real): real
  {
    amount * 0.5
  }

  /** The vendor's share: half the amount. */
  function VendorEarnings(amount: real): real
  {
    amount * 0.5
  }

  /** `x.toFixed(2)` as a whole number of hundredths: the nearest one, a
      tie going away from zero. */
  function Hundredths(x: real): (h: int)
    ensures x >= 0.0 ==> h as real - 0.5 <= x * 100.0 < h as real + 0.5
    ensures x < 0.0 ==> h as real - 0.5 < x * 100.0 <= h as real + 0.5
  {
    if x >= 0.0 then (x * 100.0 + 0.5).Floor else -((-x) * 100.0 + 0.5).Floor
  }

  /** For an amount in whole paise taken as an exact real, the fee and the
      earnings are equal halves of the amount, and their `toFixed(2)`
      values add up to the amount shown, except that an odd number of paise
      shows one paisa more: on exact halves both round their half-paisa up.
      The page rounds binary doubles, where the half of an odd amount may
      lie just below the tie; `ShownSharesWithinOnePaisa` covers that. */
  lemma ShownSharesAddUp(paise: nat)
    ensures var a := paise as real / 100.0;
      PlatformFee(a) == VendorEarnings(a) && PlatformFee(a) + VendorEarnings(a) == a
    ensures var a := paise as real / 100.0;
      Hundredths(PlatformFee(a)) + Hundredths(VendorEarnings(a)) == paise + paise % 2
    ensures Hundredths(paise as real / 100.0) == paise
  {
    var a := paise as real / 100.0;
    var m := paise / 2;
    var h := Hundredths(PlatformFee(a));
    assert PlatformFee(a) * 100.0 == paise as real / 2.0;
    assert paise as real == 2.0 * m as real + (paise % 2) as real;
    assert h == m + paise % 2;
  }

  /** Whatever the rounding of the half amount, as long as the shown share
      is a nearest hundredth of it (within half a paisa, either way at a
      tie), the two equal shares show the amount exactly when it is even,
      and one paisa less or one paisa more when it is odd. */
  lemma ShownSharesWithinOnePaisa(paise: nat, share: int)
    requires 2 * share - 1 <= paise <= 2 * share + 1
    ensures paise % 2 == 0 ==> share + share == paise
    ensures paise % 2 == 1 ==> share + share == paise - 1 || share + share == paise + 1
  {
  }
}
