/**
 * The bell in the header: how old each notification reads ("3 hours ago"),
 * when opening the list marks the notifications read, and the unread badge.
 */
module NotificationWidget {
  import opened Strings
  import Language

  const SecondsPerYear := 31536000
  const SecondsPerMonth := 2592000
  const SecondsPerDay := 86400
  const SecondsPerHour := 3600
  const SecondsPerMinute := 60

  /**
   * `Math.floor((now - timestamp) / 1000)`: the whole seconds elapsed, both
   * times in milliseconds; negative for a timestamp in the future.
   */
  function Elapsed(now: int, timestamp: int): (seconds: int)
    ensures seconds * 1000 <= now - timestamp < seconds * 1000 + 1000
  {
    (now - timestamp) / 1000
  }

  /** The phrase a timestamp is shown with, and its count. */
  datatype Ago =
    | YearsAgo(count: nat)
    | MonthsAgo(count: nat)
    | DaysAgo(count: nat)
    | HoursAgo(count: nat)
    | MinutesAgo(count: nat)
    | JustNow

  /**
   * `formatTimestamp`: the largest unit the elapsed seconds strictly exceed,
   * with the whole number of those units; `JustNow` up to one minute,
   * including timestamps in the future.
   */
  function Format(now: int, timestamp: int): (ago: Ago)
    ensures var s := Elapsed(now, timestamp);
      && (ago.YearsAgo? <==> s > SecondsPerYear)
      && (ago.MonthsAgo? <==> SecondsPerMonth < s <= SecondsPerYear)
      && (ago.DaysAgo? <==> SecondsPerDay < s <= SecondsPerMonth)
      && (ago.HoursAgo? <==> SecondsPerHour < s <= SecondsPerDay)
      && (ago.MinutesAgo? <==> SecondsPerMinute < s <= SecondsPerHour)
      && (ago.JustNow? <==> s <= SecondsPerMinute)
    ensures !ago.JustNow? ==> ago.count >= 1
    ensures ago.MonthsAgo? ==> ago.count <= 12
    ensures ago.DaysAgo? ==> ago.count <= 30
    ensures ago.HoursAgo? ==> ago.count <= 24
    ensures ago.MinutesAgo? ==> ago.count <= 60
  {
    var s := Elapsed(now, timestamp);
    if s > SecondsPerYear then YearsAgo(s / SecondsPerYear)
    else if s > SecondsPerMonth then MonthsAgo(s / SecondsPerMonth)
    else if s > SecondsPerDay then DaysAgo(s / SecondsPerDay)
    else if s > SecondsPerHour then HoursAgo(s / SecondsPerHour)
    else if s > SecondsPerMinute then MinutesAgo(s / SecondsPerMinute)
    else JustNow
  }

  /** The length in seconds of the unit a phrase counts in. */
  function Unit(ago: Ago): nat
    requires !ago.JustNow?
  {
    match ago
    case YearsAgo(_) => SecondsPerYear
    case MonthsAgo(_) => SecondsPerMonth
    case DaysAgo(_) => SecondsPerDay
    case HoursAgo(_) => SecondsPerHour
    case MinutesAgo(_) => SecondsPerMinute
  }

  /** The count is the elapsed time in whole units, rounded down. */
  lemma CountIsWholeUnits(now: int, timestamp: int)
    requires !Format(now, timestamp).JustNow?
    ensures var ago := Format(now, timestamp);
      ago.count * Unit(ago) <= Elapsed(now, timestamp) < (ago.count + 1) * Unit(ago)
  {
  }

  /** The edges of the buckets: exactly a minute is just now, exactly a day is 24 hours. */
  lemma BucketEdges(timestamp: int)
    ensures Format(timestamp + 60000, timestamp) == JustNow
    ensures Format(timestamp + 60999, timestamp) == JustNow
    ensures Format(timestamp + 61000, timestamp) == MinutesAgo(1)
    ensures Format(timestamp + 86400000, timestamp) == HoursAgo(24)
    ensures Format(timestamp - 1, timestamp) == JustNow
  {
  }

  /** How coarse a phrase is: 0 for just now up to 5 for years. */
  function Rank(ago: Ago): (k: nat)
    ensures k <= 5 && (k == 0 <==> ago.JustNow?)
  {
    match ago
    case JustNow => 0
    case MinutesAgo(_) => 1
    case HoursAgo(_) => 2
    case DaysAgo(_) => 3
    case MonthsAgo(_) => 4
    case YearsAgo(_) => 5
  }

  /** An older notification never reads as more recent than a newer one. */
  lemma OlderReadsOlder(now: int, older: int, newer: int)
    requires older <= newer
    ensures Rank(Format(now, older)) >= Rank(Format(now, newer))
    ensures Format(now, older).JustNow? || Rank(Format(now, older)) > Rank(Format(now, newer)) ||
      Format(now, older).count >= Format(now, newer).count
  {
    var a, b := Elapsed(now, older), Elapsed(now, newer);
    assert b <= a;
  }

  /** The text shown: the phrase looked up through the translation function with its count. */
  function Label(loading: bool, tables: map<Language.Lang, map<string, string>>, language: Language.Lang,
                 ago: Ago): (text: string)
    ensures loading ==> text == PhraseKey(ago)
  {
    if ago.JustNow? then Language.T(loading, tables, language, "justNow", [])
    else Language.T(loading, tables, language, PhraseKey(ago), [("count", Language.Number(ago.count))])
  }

  /** The translation key of each phrase. */
  function PhraseKey(ago: Ago): string {
    match ago
    case YearsAgo(_) => "yearsAgo"
    case MonthsAgo(_) => "monthsAgo"
    case DaysAgo(_) => "daysAgo"
    case HoursAgo(_) => "hoursAgo"
    case MinutesAgo(_) => "minutesAgo"
    case JustNow => "justNow"
  }

  // ---------------------------------------------------------------------
  // The dropdown

  /**
   * `toggleDropdown`: the list opens or closes, and the notifications are
   * marked read only when a closed list is opened while some are unread.
   */
  function Toggle(isOpen: bool, unreadCount: nat): (r: (bool, bool))
    ensures r.0 == !isOpen
    ensures r.1 <==> !isOpen && unreadCount > 0
  {
    (!isOpen, !isOpen && unreadCount > 0)
  }

  /**
   * Opening then closing the list restores it, and marks the notifications
   * read at most once, on the opening click; marking read then leaves
   * nothing for the closing click.
   */
  lemma ToggleTwice(isOpen: bool, unreadCount: nat, unreadAfter: nat)
    requires Toggle(isOpen, unreadCount).1 ==> unreadAfter == 0
    requires !Toggle(isOpen, unreadCount).1 ==> unreadAfter == unreadCount
    ensures Toggle(Toggle(isOpen, unreadCount).0, unreadAfter).0 == isOpen
    ensures !(Toggle(isOpen, unreadCount).1 && Toggle(Toggle(isOpen, unreadCount).0, unreadAfter).1)
    ensures isOpen ==> !Toggle(isOpen, unreadCount).1
  {
  }

  // ---------------------------------------------------------------------
  // The badge

  datatype Badge = Hidden | Shown(text: string)

  /** The unread badge: hidden at 0, the number up to 9, `9+` above. */
  function BadgeFor(unreadCount: nat): (b: Badge)
    ensures b.Hidden? <==> unreadCount == 0
    ensures 1 <= unreadCount <= 9 ==> b == Shown([DigitChar(unreadCount)])
    ensures unreadCount > 9 ==> b == Shown("9+")
  {
    if unreadCount == 0 then Hidden
    else if unreadCount > 9 then Shown("9+")
    else Shown(NatToString(unreadCount))
  }

  /** The badge tells every count from 0 to 9 apart, and lumps the rest together. */
  lemma BadgeDistinguishesSmallCounts(a: nat, b: nat)
    ensures BadgeFor(a) == BadgeFor(b) <==> a == b || (a > 9 && b > 9)
  {
  }
}
