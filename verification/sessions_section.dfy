/**
 * The settings page's list of active sessions: the icon picked for a device
 * name, the "last active" phrase, which buttons a row shows, and the
 * selection state behind the revoke confirmation dialog.
 */
module SessionsSection {
  import opened Wrappers
  import opened JsString
  import NumberParse
  import Listing

  /** One signed-in session as the list shows it; `lastActive` is a time in milliseconds. */
  datatype Session = Session(id: string, device: string, location: string, ipAddress: string, lastActive: int, current: bool)

  // ----- device icon -----

  /** The three device icons. */
  datatype DeviceIcon = Smartphone | Laptop | Monitor

  /** The lower-cased device name contains `word`. */
  predicate Mentions(device: string, word: string) {
    Contains(ToLower(device), word)
  }

  /**
   * `getDeviceIcon`: a phone for "iphone" or "android", tested first, a
   * laptop for "mac" or "windows", a monitor otherwise; case-insensitive.
   */
  function GetDeviceIcon(device: string): (r: DeviceIcon)
    ensures r == Smartphone <==> Mentions(device, "iphone") || Mentions(device, "android")
    ensures r == Laptop <==>
              !Mentions(device, "iphone") && !Mentions(device, "android")
              && (Mentions(device, "mac") || Mentions(device, "windows"))
    ensures r == Monitor <==>
              !Mentions(device, "iphone") && !Mentions(device, "android")
              && !Mentions(device, "mac") && !Mentions(device, "windows")
  {
    var lower := ToLower(device);
    if Contains(lower, "iphone") || Contains(lower, "android") then Smartphone
    else if Contains(lower, "mac") || Contains(lower, "windows") then Laptop
    else Monitor
  }

  /** Lower-casing twice is lower-casing once. */
  lemma ToLowerIdempotent(s: string)
    ensures ToLower(ToLower(s)) == ToLower(s)
  {
    var t := ToLower(s);
    forall i | 0 <= i < |s| ensures LowerChar(t[i]) == t[i] {
    }
  }

  /** The icon does not depend on letter case: two names equal up to case get the same icon. */
  lemma DeviceIconIgnoresCase(a: string, b: string)
    requires ToLower(a) == ToLower(b)
    ensures GetDeviceIcon(a) == GetDeviceIcon(b)
    ensures GetDeviceIcon(ToLower(a)) == GetDeviceIcon(a)
  {
    ToLowerIdempotent(a);
  }

  // ----- last active -----

  /** Milliseconds in a minute, an hour, a day and a week. */
  const MinuteMs: int := 60000
  const HourMs: int := 3600000
  const DayMs: int := 86400000
  const WeekMs: int := 604800000

  /** How long ago a session was last active. */
  datatype LastActive = Phrase(text: string) | CalendarDate

  /** `${n} ${unit}${n > 1 ? "s" : ""} ago`. */
  function Ago(n: nat, unit: string): (r: string)
    ensures n > 1 ==> r == NumberParse.DecimalString(n) + " " + unit + "s ago"
    ensures n <= 1 ==> r == NumberParse.DecimalString(n) + " " + unit + " ago"
  {
    NumberParse.DecimalString(n) + " " + unit + (if n > 1 then "s" else "") + " ago"
  }

  /** Whole hours are whole minutes divided by 60, both rounded down. */
  lemma MinutesToHours(ms: int)
    ensures (ms / MinuteMs) / 60 == ms / HourMs
  {
  }

  /** Whole days are whole hours divided by 24, both rounded down. */
  lemma HoursToDays(ms: int)
    ensures (ms / HourMs) / 24 == ms / DayMs
  {
  }

  /**
   * `formatLastActive` on the difference `diffMs` between now and the last
   * activity: minutes, hours and days are successive floor divisions, and the
   * phrase uses the largest unit that is still below its next threshold.
   */
  function FormatLastActive(diffMs: int): (r: LastActive)
    ensures diffMs < MinuteMs ==> r == Phrase("Just now")
    ensures MinuteMs <= diffMs < HourMs ==>
              1 <= diffMs / MinuteMs < 60 && r == Phrase(Ago(diffMs / MinuteMs, "minute"))
    ensures HourMs <= diffMs < DayMs ==>
              1 <= diffMs / HourMs < 24 && r == Phrase(Ago(diffMs / HourMs, "hour"))
    ensures DayMs <= diffMs < WeekMs ==>
              1 <= diffMs / DayMs < 7 && r == Phrase(Ago(diffMs / DayMs, "day"))
    ensures WeekMs <= diffMs ==> r == CalendarDate
  {
    var diffMins := diffMs / 60000;
    var diffHours := diffMins / 60;
    var diffDays := diffHours / 24;
    MinutesToHours(diffMs);
    HoursToDays(diffMs);
    if diffMins < 1 then Phrase("Just now")
    else if diffMins < 60 then Phrase(Ago(diffMins, "minute"))
    else if diffHours < 24 then Phrase(Ago(diffHours, "hour"))
    else if diffDays < 7 then Phrase(Ago(diffDays, "day"))
    else CalendarDate
  }

  /** Every "N unit ago" phrase ends in "ago". */
  lemma AgoEnds(n: nat, unit: string)
    ensures var t := Ago(n, unit); |t| >= 3 && t[|t| - 3..] == "ago"
  {
    var t := Ago(n, unit);
    assert t == (NumberParse.DecimalString(n) + " " + unit + (if n > 1 then "s" else "")) + " ago";
  }

  /** "Just now" is shown exactly for differences under a minute, negative ones included. */
  lemma JustNowExactly(diffMs: int)
    ensures FormatLastActive(diffMs) == Phrase("Just now") <==> diffMs < MinuteMs
  {
    if MinuteMs <= diffMs < WeekMs {
      var t := FormatLastActive(diffMs).text;
      var n := if diffMs < HourMs then diffMs / MinuteMs else if diffMs < DayMs then diffMs / HourMs else diffMs / DayMs;
      var unit := if diffMs < HourMs then "minute" else if diffMs < DayMs then "hour" else "day";
      assert t == Ago(n, unit);
      AgoEnds(n, unit);
      assert "Just now"[5..] == "now";
    }
  }

  // ----- rows and buttons -----

  /** What one row of the list shows. */
  datatype Row = Row(icon: DeviceIcon, device: string, location: string, ipAddress: string, lastActive: LastActive, currentBadge: bool, revokeButton: bool)

  /** The row of session `s` at time `now`: the badge for the current session, the revoke button for every other one. */
  function RowOf(s: Session, now: int): (r: Row)
    ensures r.currentBadge <==> s.current
    ensures r.revokeButton <==> !s.current
    ensures r.icon == GetDeviceIcon(s.device) && r.lastActive == FormatLastActive(now - s.lastActive)
  {
    Row(GetDeviceIcon(s.device), s.device, s.location, s.ipAddress, FormatLastActive(now - s.lastActive), s.current, !s.current)
  }

  /** The rows, one per session in order. */
  function Rows(sessions: seq<Session>, now: int): (r: seq<Row>)
    ensures |r| == |sessions| && forall i :: 0 <= i < |sessions| ==> r[i] == RowOf(sessions[i], now)
  {
    seq(|sessions|, i requires 0 <= i < |sessions| => RowOf(sessions[i], now))
  }

  /** The "Revoke All Other Sessions" button shows when there is more than one session. */
  function RevokeAllShown(sessions: seq<Session>): (b: bool)
    ensures b <==> |sessions| >= 2
  {
    |sessions| > 1
  }

  /** `sessions.filter((s) => !s.current)`: a filter, so `Listing.FilterAppend` keeps the list's order. */
  function NonCurrent(sessions: seq<Session>): (r: seq<Session>)
    ensures |r| <= |sessions|
    ensures forall s :: s in r <==> s in sessions && !s.current
  {
    Listing.Filter(sessions, (s: Session) => !s.current)
  }

  /** The sessions that are not current keep their order and their number across the list. */
  lemma NonCurrentAppend(a: seq<Session>, b: seq<Session>)
    ensures NonCurrent(a + b) == NonCurrent(a) + NonCurrent(b)
  {
    Listing.FilterAppend(a, b, (s: Session) => !s.current);
  }

  /** The revoke-all button only announces the revocation when some session is not the current one; it revokes nothing itself. */
  function RevokeAllAnnounces(sessions: seq<Session>): (b: bool)
    ensures b <==> exists s :: s in sessions && !s.current
  {
    var r := NonCurrent(sessions);
    assert r != [] ==> r[0] in r;
    |r| > 0
  }

  /** A list with a single session has no revoke-all button, and its row has a revoke button exactly when it is not current. */
  lemma SingleSessionButtons(s: Session, now: int)
    ensures !RevokeAllShown([s])
    ensures Rows([s], now)[0].revokeButton <==> !s.current
  {
  }

  // ----- the revoke dialog -----

  /** The component's state: the selected session, and the ids handed to `onRevoke` so far. */
  class Panel {
    var revokeSessionId: Option<string>
    var revoked: seq<string>

    /** `!!revokeSessionId`: a non-empty id is selected, and the dialog is open. */
    predicate DialogOpen()
      reads this
    {
      revokeSessionId.Some? && revokeSessionId.value != ""
    }

    constructor ()
      ensures revokeSessionId == None && revoked == []
      ensures !DialogOpen()
    {
      revokeSessionId := None;
      revoked := [];
    }

    /** A row's revoke button: select its session. */
    method Select(id: string)
      modifies this
      ensures revokeSessionId == Some(id) && revoked == old(revoked)
      ensures DialogOpen() <==> id != ""
    {
      revokeSessionId := Some(id);
    }

    /** The dialog's `onOpenChange`: clear the selection. */
    method Dismiss()
      modifies this
      ensures revokeSessionId == None && revoked == old(revoked)
      ensures !DialogOpen()
    {
      revokeSessionId := None;
    }

    /**
     * `handleRevoke`: with nothing selected, nothing happens; otherwise the
     * selected id is handed to `onRevoke` and, whether that succeeds or
     * fails, the selection is cleared.
     */
    method HandleRevoke()
      modifies this
      ensures !old(DialogOpen()) ==> revokeSessionId == old(revokeSessionId) && revoked == old(revoked)
      ensures old(DialogOpen()) ==> revokeSessionId == None && revoked == old(revoked) + [old(revokeSessionId).value]
      ensures !DialogOpen()
    {
      if !DialogOpen() {
        return;
      }
      revoked := revoked + [revokeSessionId.value];
      revokeSessionId := None;
    }
  }
}
