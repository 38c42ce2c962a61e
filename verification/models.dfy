/**
 * The records shared by the front-end session context and the back-end
 * controller (src/lib/models.ts), the `m:ss` clock formatter and the
 * role-to-style mappings used by the dashboard.
 */
module Models {
  import opened Decimal

  datatype Option<+T> = None | Some(value: T)

  /** Wall-clock instants are opaque to the engine: only their identity matters. */
  type Timestamp = nat

  datatype Role = Pilot | Copilot | Observer

  datatype RoomStatus = Active | Finished

  datatype Participant = Participant(
    id: string,
    name: string,
    slackHandle: string,
    currentRoomId: string,
    role: Role,
    position: int)

  datatype Leader = Leader(
    id: string,
    name: string,
    slackHandle: string,
    roomId: string,
    zoomLink: string)

  datatype Room = Room(
    id: string,
    name: string,
    leaderId: string,
    participants: seq<string>,
    status: RoomStatus)

  datatype Session = Session(
    currentRound: nat,
    startTime: Timestamp,
    endTime: Option<Timestamp>,
    isRunning: bool)

  // ---------------------------------------------------------------------
  // formatTime

  /** JavaScript's `%`: the remainder takes the sign of the dividend. */
  function JsRemainder(a: int, b: int): (r: int)
    requires b > 0
    ensures -b < r < b
    ensures a >= 0 ==> 0 <= r
    ensures a <= 0 ==> r <= 0
  {
    if a >= 0 then a % b else -((-a) % b)
  }

  /** `s.padStart(2, '0')`. */
  function PadStart2(s: string): string {
    if |s| >= 2 then s else seq(2 - |s|, _ => '0') + s
  }

  /** Padding keeps the string at the right end, fills in front with '0', and reaches length 2. */
  lemma PadStart2Pads(s: string)
    ensures var r := PadStart2(s);
      && |r| == (if |s| >= 2 then |s| else 2)
      && r[|r| - |s|..] == s
      && forall k :: 0 <= k < |r| - |s| ==> r[k] == '0'
  {
  }

  /**
   * `formatTime(seconds)`: `Math.floor(seconds / 60)` (Dafny's `/` by a
   * positive divisor rounds down, like `Math.floor`), a colon, and
   * `seconds % 60` padded to two characters.
   */
  function FormatTime(seconds: int): string {
    IntToString(seconds / 60) + ":" + PadStart2(IntToString(JsRemainder(seconds, 60)))
  }

  /** Reads an `m:ss` clock back into seconds; `None` for any other shape. */
  function ParseTime(t: string): Option<nat> {
    if |t| >= 4 && t[|t| - 3] == ':' && AllDigits(t[..|t| - 3]) && AllDigits(t[|t| - 2..]) then
      Some(60 * ParseDigits(t[..|t| - 3]) + ParseDigits(t[|t| - 2..]))
    else
      None
  }

  /** A clock of the `m:ss` shape parses as 60 * m + ss. */
  lemma ParseTimeFields(t: string, minutes: nat, secs: nat)
    requires |t| >= 4 && t[|t| - 3] == ':' && AllDigits(t[..|t| - 3]) && AllDigits(t[|t| - 2..])
    requires ParseDigits(t[..|t| - 3]) == minutes && ParseDigits(t[|t| - 2..]) == secs
    ensures ParseTime(t) == Some(60 * minutes + secs)
  {
  }

  /** The shape of a formatted clock: the minutes, a colon, and two digits worth the seconds past them. */
  lemma FormatTimeShape(seconds: int)
    requires seconds >= 0
    ensures var t := FormatTime(seconds);
      && |t| >= 4
      && t[..|t| - 3] == NatToString(seconds / 60)
      && t[|t| - 3] == ':'
      && AllDigits(t[|t| - 2..])
      && ParseDigits(t[|t| - 2..]) == seconds % 60
  {
    var t := FormatTime(seconds);
    var m := NatToString(seconds / 60);
    var ss := PadStart2(NatToString(seconds % 60));
    assert JsRemainder(seconds, 60) == seconds % 60;
    assert t == m + ":" + ss;
    ParseNatToString(seconds % 60);
    if seconds % 60 < 10 {
      assert ss == ['0', DigitChar(seconds % 60)];
    } else {
      assert ss == NatToString(seconds % 60);
      assert |ss| == 2;
      assert ss == [DigitChar(seconds % 60 / 10), DigitChar(seconds % 60 % 10)];
    }
    assert t[..|t| - 3] == m;
    assert t[|t| - 2..] == ss;
  }

  /**
   * Both fields of a formatted clock are digits: the minutes in decimal,
   * then a colon, then exactly two digits, reading as the minutes and the
   * seconds past them.
   */
  lemma FormatTimeDigits(seconds: int)
    requires seconds >= 0
    ensures var t := FormatTime(seconds);
      && |t| >= 4 && t[|t| - 3] == ':'
      && AllDigits(t[..|t| - 3]) && ParseDigits(t[..|t| - 3]) == seconds / 60
      && AllDigits(t[|t| - 2..]) && ParseDigits(t[|t| - 2..]) == seconds % 60
  {
    FormatTimeShape(seconds);
    ParseNatToString(seconds / 60);
  }

  /** Parsing a formatted clock gives back the number of seconds: 60·m + ss. */
  lemma FormatTimeRoundTrip(seconds: int)
    requires seconds >= 0
    ensures ParseTime(FormatTime(seconds)) == Some(seconds)
  {
    FormatTimeDigits(seconds);
    ParseTimeFields(FormatTime(seconds), seconds / 60, seconds % 60);
  }

  /** The round duration of 130 seconds reads "2:10", as the reset toast says. */
  lemma FormatRoundDuration()
    ensures FormatTime(130) == "2:10"
  {
    assert NatToString(2) == "2";
    assert NatToString(10) == "10";
  }

  /** Negative inputs keep JavaScript's signs: -1 second renders as "-1:-1". */
  lemma FormatNegativeSecond()
    ensures FormatTime(-1) == "-1:-1"
  {
    assert NatToString(1) == "1";
  }

  // ---------------------------------------------------------------------
  // Role styles

  datatype BadgeVariant = Default | Outline | Secondary | Destructive

  /** `getRoleBadgeVariant`. */
  function RoleBadgeVariant(role: Role): (v: BadgeVariant)
    ensures v != Destructive
  {
    match role
    case Pilot => Default
    case Copilot => Secondary
    case Observer => Outline
  }

  /** `getRoleColor`: blue for the pilot, green for the copilot, gray for observers. */
  function RoleColor(role: Role): string {
    match role
    case Pilot => "bg-blue-100 text-blue-800 dark:bg-blue-900 dark:text-blue-300"
    case Copilot => "bg-green-100 text-green-800 dark:bg-green-900 dark:text-green-300"
    case Observer => "bg-gray-100 text-gray-800 dark:bg-gray-800 dark:text-gray-300"
  }

  /** Every role gets its own badge variant. */
  lemma RoleBadgeVariantInjective(a: Role, b: Role)
    ensures RoleBadgeVariant(a) == RoleBadgeVariant(b) ==> a == b
  {
  }

  /** Every role gets its own colour classes. */
  lemma RoleColorInjective(a: Role, b: Role)
    ensures RoleColor(a) == RoleColor(b) ==> a == b
  {
  }
}
