/**
 * The in-memory database of the back end and the operations that change it.
 * Each operation applies the matching decision function of `Accounts`,
 * `Records` or `Messaging`. The ghost field `saved` is what the last persist
 * wrote to storage. The ghost field `events` lists the window events
 * dispatched so far. Duty charts are stored under their own keys, apart from
 * the persisted snapshot.
 */
module Store {
  import opened Wrappers
  import opened Values
  import opened Entities
  import opened Errors
  import Strings
  import Accounts
  import Records
  import Messaging
  import DutyData

  /** Everything `persistDatabase` writes, one entry per list. */
  datatype Snapshot = Snapshot(
    stations: seq<Station>,
    users: seq<User>,
    passwords: map<string, string>,
    records: seq<RecordData>,
    chatMessages: seq<ChatMessage>,
    notifications: seq<Notification>)

  /** The window events the back end dispatches. */
  datatype Event =
    | NotificationAdded(notification: Notification)
    | NotificationsRead
    | NotificationsCleared
    | MessageAdded(message: ChatMessage)
    | MessagesRead(fromUserId: string, toUserId: string)

  /** The `notification_added` events of newly added notifications, in order. */
  function Announced(notes: seq<Notification>): (announced: seq<Event>)
    ensures |announced| == |notes|
    ensures forall k :: 0 <= k < |notes| ==> announced[k] == NotificationAdded(notes[k])
  {
    seq(|notes|, k requires 0 <= k < |notes| => NotificationAdded(notes[k]))
  }

  // ---------------------------------------------------------------------
  // seed data

  const SeedStations: seq<Station> := [
    Station("ps_gegal", "Gegal", true),
    Station("ps_mangliyawas", "Mangliyawas", true),
    Station("ps_pisangan", "Pisangan", true),
    Station("ps_pushkar", "Pushkar", true),
    Station("ps_dargah", "Dargah", true),
    Station("ps_ganj", "Ganj", true),
    Station("ps_bhinai", "Bhinai", true),
    Station("ps_kekri_city", "Kekri City", true),
    Station("ps_kekri_sadar", "Kekri Sadar", true),
    Station("ps_sarana", "Sarana", true),
    Station("ps_sarwar", "Sarwar", true),
    Station("ps_sawar", "Sawar", true),
    Station("ps_gandhi_nagar", "Gandhi Nagar", true),
    Station("ps_kishangarh", "Kishangarh", true),
    Station("ps_madanganj", "Madanganj", true),
    Station("ps_arian", "Arian", true),
    Station("ps_bander_sindri", "Bander Sindri", true),
    Station("ps_borada", "Borada", true),
    Station("ps_rupangarh", "Rupangarh", true),
    Station("ps_nasirabad_city", "Nasirabad City", true),
    Station("ps_nasirabad_sadar", "Nasirabad Sadar", true),
    Station("ps_shri_nagar", "Shri Nagar", true),
    Station("ps_christiangunj", "Christiangunj", true),
    Station("ps_civil_lines", "Civil Lines", true),
    Station("ps_haribhau_upadhyay_nagar", "Haribhau Upadhyay Nagar", true),
    Station("ps_kotwali_ajmer", "Kotwali Ajmer", true),
    Station("ps_mahila", "Mahila PS", true),
    Station("ps_adarsh_nagar", "Adrash Nagar", true),
    Station("ps_alwar_gate", "Alwar Gate", true),
    Station("ps_clock_tower", "Clock Tower", true),
    Station("ps_ramganj", "Ramganj", true),
    Station("ps_cyber_thana_ajmer", "Cyber Thana Ajmer", true)
  ]

  const SeedAdmin: User := User("admin_user", "Admin", Admin, None, None, "rajpoliceajmer",
                                "admin@rajpolice.gov", "1234567890", "System Administrator", None)

  const SeedOfficer: User := User("user_insp_ram", "Insp. Ram Singh", StationOfficer, Some("ps_christiangunj"), None,
                                  "ram.singh.insp", "ram.singh@rajpolice.gov", "9876543210", "Inspector", None)

  const SeedUsers: seq<User> := [SeedAdmin, SeedOfficer]

  const SeedPasswords: map<string, string> := map["rajpoliceajmer" := "Police@01ajmer", "ram.singh.insp" := "password"]

  /** The seed records, stamped with the current year and today's date. */
  function SeedRecords(year: int, today: string): seq<RecordData> {
    var base := (id: string, stationId: string, registerId: string) =>
      map["id" := Str(id), "year" := Num(year), "stationId" := Str(stationId), "registerId" := Str(registerId)];
    var caseNumber := Str("CR-001/" + Strings.IntToString(year));
    [
      base("rec_crime_1", "ps_christiangunj", "crime_register") + map[
        "caseNumber" := caseNumber, "dateRegistered" := Str(today), "section" := Str("IPC 302"),
        "complainant" := Str("John Doe, Ajmer"), "disposal_type" := Str("Pending")],
      base("rec_malkhana_1", "ps_christiangunj", "malkhana_register") + map[
        "caseNumber" := caseNumber, "itemNumber" := Str("MK-001"), "itemDescription" := Str("A sharp knife"),
        "dateReceived" := Str(today)],
      base("rec_posting_1", "ps_pushkar", "posting_list") + map["officerName" := Str("श्री विक्रम सिंह - पुनि")],
      base("rec_posting_2", "ps_pushkar", "posting_list") + map["officerName" := Str("श्री गोपाल सिंह - सउनि")],
      base("rec_posting_3", "ps_pushkar", "posting_list") + map["officerName" := Str("श्रीमति सुनिता - मकानि 2303")]
    ]
  }

  /** The two seed notifications of the inspector, five minutes and one hour old. */
  function SeedNotifications(now: int): seq<Notification> {
    [
      Notification("notif1", "user_insp_ram", Task, "New task assigned: Patrol Route Update", None, now - 1000 * 60 * 5, false),
      Notification("notif2", "user_insp_ram", System, "System will be down for maintenance tonight at 2 AM.", None,
                   now - 1000 * 60 * 60, true)
    ]
  }

  /** The seed admin signs in by email; the seed inspector is refused the admin's password. */
  lemma SeedAccountsSignIn()
    ensures Accounts.Login(SeedUsers, SeedPasswords, SeedStations, "admin@rajpolice.gov", "Police@01ajmer") ==
            Some((0, SeedAdmin))
    ensures Accounts.Login(SeedUsers, SeedPasswords, SeedStations, "rajpoliceajmer", "Police@01ajmer") ==
            Some((0, SeedAdmin))
    ensures Accounts.Login(SeedUsers, SeedPasswords, SeedStations, "ram.singh.insp", "Police@01ajmer").None?
  {
    assert Accounts.LoginIndex(SeedUsers, "admin@rajpolice.gov") == Some(0);
    assert Accounts.LoginIndex(SeedUsers, "rajpoliceajmer") == Some(0);
    assert SeedUsers[0].ssoId != "ram.singh.insp" && SeedUsers[0].email != "ram.singh.insp";
    assert SeedUsers[1].ssoId == "ram.singh.insp" && |SeedUsers| == 2;
    assert Accounts.LoginIndex(SeedUsers, "ram.singh.insp") == Some(1);
  }

  // ---------------------------------------------------------------------
  // duty charts

  /** The storage key of a station's chart for a date. */
  function ChartKey(stationId: string, date: string): string {
    "duty_chart_" + stationId + "_" + date
  }

  /**
   * Two keys are the same only for the same station and date, as long as
   * the dates carry no underscore (the date input gives `YYYY-MM-DD`).
   */
  lemma ChartKeysDistinct(s1: string, d1: string, s2: string, d2: string)
    requires '_' !in d1 && '_' !in d2
    requires ChartKey(s1, d1) == ChartKey(s2, d2)
    ensures s1 == s2 && d1 == d2
  {
    var key := ChartKey(s1, d1);
    var n := |key|;
    assert key[n - |d1| - 1] == '_' && key[n - |d2| - 1] == '_';
    assert d1 == key[n - |d1|..] == d2;
    assert s1 == key[11..n - |d1| - 1] == s2;
  }

  /**
   * `getDutyChart(user, date)` on the stored charts: nothing without a user
   * with a station; otherwise the stored chart for the key, or, when there is
   * none, a copy of the seed chart carrying the date, which is stored. The
   * result is the chart and the charts after the call.
   */
  function LoadChart(charts: map<string, DutyChart>, user: Option<User>, date: string)
    : (r: Option<(DutyChart, map<string, DutyChart>)>)
    ensures r.None? <==> user.None? || !HasStation(user.value)
    ensures r.Some? ==>
      var key := ChartKey(user.value.stationId.value, date);
      && (key in charts ==> r.value == (charts[key], charts))
      && (key !in charts ==> r.value.0 == DutyData.SeedChart.(date := date) && r.value.1 == charts[key := r.value.0])
  {
    if user.None? || !HasStation(user.value) then None
    else
      var key := ChartKey(user.value.stationId.value, date);
      if key in charts then Some((charts[key], charts))
      else
        var seeded := DutyData.SeedChart.(date := date);
        Some((seeded, charts[key := seeded]))
  }

  /** `updateDutyChart(user, date, data)`: refused without a user with a station; otherwise the chart is stored under its key. */
  function SaveChart(charts: map<string, DutyChart>, user: Option<User>, date: string, data: DutyChart)
    : (r: Result<map<string, DutyChart>, ApiError>)
    ensures r.Failure? <==> user.None? || !HasStation(user.value)
    ensures r.Failure? ==> r.error == DutyChartNeedsStation
    ensures r.Success? ==> r.value == charts[ChartKey(user.value.stationId.value, date) := data]
  {
    if user.None? || !HasStation(user.value) then Failure(DutyChartNeedsStation)
    else Success(charts[ChartKey(user.value.stationId.value, date) := data])
  }

  /** A saved chart is what the next load returns, and that load stores nothing more. */
  lemma SavedChartLoads(charts: map<string, DutyChart>, user: Option<User>, date: string, data: DutyChart)
    requires SaveChart(charts, user, date, data).Success?
    ensures var saved := SaveChart(charts, user, date, data).value;
      LoadChart(saved, user, date) == Some((data, saved))
  {
  }

  /** Loading twice gives the same chart, and the second load changes nothing. */
  lemma LoadChartStable(charts: map<string, DutyChart>, user: Option<User>, date: string)
    requires LoadChart(charts, user, date).Some?
    ensures var (chart, after) := LoadChart(charts, user, date).value;
      LoadChart(after, user, date) == Some((chart, after))
  {
  }

  /** Saving one station's chart leaves what another station loads for any date untouched. */
  lemma ChartsOfStationsApart(charts: map<string, DutyChart>, user: Option<User>, date: string, data: DutyChart,
                              other: Option<User>, otherDate: string)
    requires SaveChart(charts, user, date, data).Success?
    requires other.Some? && HasStation(other.value) && other.value.stationId != user.value.stationId
    requires '_' !in date && '_' !in otherDate
    ensures LoadChart(SaveChart(charts, user, date, data).value, other, otherDate).value.0 ==
            LoadChart(charts, other, otherDate).value.0
  {
    var k1 := ChartKey(user.value.stationId.value, date);
    var k2 := ChartKey(other.value.stationId.value, otherDate);
    assert k1 != k2 by {
      if k1 == k2 {
        ChartKeysDistinct(user.value.stationId.value, date, other.value.stationId.value, otherDate);
        assert false;
      }
    }
  }

  // ---------------------------------------------------------------------
  // the database

  class Database {
    var stations: seq<Station>
    var users: seq<User>
    /** Passwords by SSO id. */
    var passwords: map<string, string>
    var records: seq<RecordData>
    var chatMessages: seq<ChatMessage>
    var notifications: seq<Notification>
    /** The duty charts, by `ChartKey`. */
    var dutyCharts: map<string, DutyChart>
    /** What the last persist wrote. */
    ghost var saved: Snapshot
    /** The window events dispatched so far, oldest first. */
    ghost var events: seq<Event>

    /** The persisted part of the state. */
    function Current(): Snapshot
      reads this
    {
      Snapshot(stations, users, passwords, records, chatMessages, notifications)
    }

    /** Every user's SSO id has a stored password. */
    ghost predicate Valid()
      reads this
    {
      forall k :: 0 <= k < |users| ==> users[k].ssoId in passwords
    }

    /** First start: the seed data, stamped with the year, today's date and the time, persisted at once. */
    constructor (year: int, today: string, now: int)
      ensures Valid()
      ensures Current() == Snapshot(SeedStations, SeedUsers, SeedPasswords, SeedRecords(year, today), [], SeedNotifications(now))
      ensures saved == Current() && dutyCharts == map[] && events == []
    {
      stations := SeedStations;
      users := SeedUsers;
      passwords := SeedPasswords;
      records := SeedRecords(year, today);
      chatMessages := [];
      notifications := SeedNotifications(now);
      dutyCharts := map[];
      saved := Snapshot(SeedStations, SeedUsers, SeedPasswords, SeedRecords(year, today), [], SeedNotifications(now));
      events := [];
    }

    /** Later starts: the stored lists and charts as they were saved. */
    constructor Restore(stored: Snapshot, charts: map<string, DutyChart>)
      ensures Current() == stored && saved == stored && dutyCharts == charts && events == []
      ensures Valid() <==> forall k :: 0 <= k < |stored.users| ==> stored.users[k].ssoId in stored.passwords
    {
      stations := stored.stations;
      users := stored.users;
      passwords := stored.passwords;
      records := stored.records;
      chatMessages := stored.chatMessages;
      notifications := stored.notifications;
      dutyCharts := charts;
      saved := stored;
      events := [];
    }

    /** `login`: a station user who signs in has the station's name recorded on the stored user, without a persist. */
    method Login(ssoIdOrEmail: string, password: string) returns (user: Option<User>)
      modifies this
      ensures var r := Accounts.Login(old(users), passwords, stations, ssoIdOrEmail, password);
        && (r.None? ==> user.None? && users == old(users))
        && (r.Some? ==> user == Some(r.value.1) && users == old(users)[r.value.0 := r.value.1])
      ensures Current() == old(Current()).(users := users)
      ensures saved == old(saved) && events == old(events) && dutyCharts == old(dutyCharts)
      ensures old(Valid()) ==> Valid()
    {
      var r := Accounts.Login(users, passwords, stations, ssoIdOrEmail, password);
      if r.None? {
        return None;
      }
      users := users[r.value.0 := r.value.1];
      user := Some(r.value.1);
    }

    /** `registerUser`: on success the new user and password are stored and persisted. */
    method RegisterUser(data: Accounts.Registration, now: int) returns (res: Result<User, ApiError>)
      modifies this
      ensures var r := Accounts.RegisterUser(old(users), old(passwords), data, now);
        && (r.Failure? ==> res == Failure(r.error) && Current() == old(Current()) && saved == old(saved))
        && (r.Success? ==>
              res == Success(r.value.2) && users == r.value.0 && passwords == r.value.1 &&
              Current() == old(Current()).(users := users, passwords := passwords) && saved == Current())
      ensures events == old(events) && dutyCharts == old(dutyCharts)
      ensures old(Valid()) ==> Valid()
    {
      var r := Accounts.RegisterUser(users, passwords, data, now);
      if r.Failure? {
        return Failure(r.error);
      }
      users, passwords := r.value.0, r.value.1;
      saved := Current();
      res := Success(r.value.2);
    }

    /** `updateUserProfile`: on success the user (and a new password) are stored and persisted. */
    method UpdateUserProfile(userId: string, updates: Accounts.UserUpdates, change: Accounts.PasswordChange)
      returns (res: Result<User, ApiError>)
      modifies this
      ensures var r := Accounts.UpdateUserProfile(old(users), old(passwords), stations, userId, updates, change);
        && (r.Failure? ==> res == Failure(r.error) && Current() == old(Current()) && saved == old(saved))
        && (r.Success? ==>
              res == Success(r.value.2) && users == r.value.0 && passwords == r.value.1 &&
              Current() == old(Current()).(users := users, passwords := passwords) && saved == Current())
      ensures events == old(events) && dutyCharts == old(dutyCharts)
      ensures old(Valid()) ==> Valid()
    {
      var r := Accounts.UpdateUserProfile(users, passwords, stations, userId, updates, change);
      if r.Failure? {
        return Failure(r.error);
      }
      users, passwords := r.value.0, r.value.1;
      saved := Current();
      res := Success(r.value.2);
    }

    /** `updateStationStatus`: on success the station's flag is stored and persisted. */
    method UpdateStationStatus(stationId: string, isActive: bool) returns (res: Result<Station, ApiError>)
      modifies this
      ensures var r := Accounts.UpdateStationStatus(old(stations), stationId, isActive);
        && (r.Failure? ==> res == Failure(r.error) && Current() == old(Current()) && saved == old(saved))
        && (r.Success? ==>
              res == Success(r.value.1) && stations == r.value.0 &&
              Current() == old(Current()).(stations := stations) && saved == Current())
      ensures events == old(events) && dutyCharts == old(dutyCharts)
      ensures old(Valid()) ==> Valid()
    {
      var r := Accounts.UpdateStationStatus(stations, stationId, isActive);
      if r.Failure? {
        return Failure(r.error);
      }
      stations := r.value.0;
      saved := Current();
      res := Success(r.value.1);
    }

    /** `addRecord`: on success the new record is appended and persisted. */
    method AddRecord(user: User, registerId: string, data: RecordData, now: int) returns (res: Result<RecordData, ApiError>)
      modifies this
      ensures res == Records.AddRecord(user, registerId, data, now)
      ensures res.Failure? ==> Current() == old(Current()) && saved == old(saved)
      ensures res.Success? ==>
        records == old(records) + [res.value] && Current() == old(Current()).(records := records) && saved == Current()
      ensures events == old(events) && dutyCharts == old(dutyCharts)
      ensures old(Valid()) ==> Valid()
    {
      res := Records.AddRecord(user, registerId, data, now);
      if res.Success? {
        records := records + [res.value];
        saved := Current();
      }
    }

    /** `updateRecord`: on success the merged record replaces the stored one and is persisted. */
    method UpdateRecord(user: User, registerId: string, recordId: string, data: RecordData)
      returns (res: Result<RecordData, ApiError>)
      modifies this
      ensures var r := Records.UpdateRecord(old(records), user, recordId, data);
        && (r.Failure? ==> res == Failure(r.error) && Current() == old(Current()) && saved == old(saved))
        && (r.Success? ==>
              res == Success(r.value.1) && records == r.value.0 &&
              Current() == old(Current()).(records := records) && saved == Current())
      ensures events == old(events) && dutyCharts == old(dutyCharts)
      ensures old(Valid()) ==> Valid()
    {
      var r := Records.UpdateRecord(records, user, recordId, data);
      if r.Failure? {
        return Failure(r.error);
      }
      records := r.value.0;
      saved := Current();
      res := Success(r.value.1);
    }

    /** `deleteRecord`: the error, if any; an unknown id changes and persists nothing. */
    method DeleteRecord(user: User, registerId: string, recordId: string) returns (err: Option<ApiError>)
      modifies this
      ensures var r := Records.DeleteRecord(old(records), user, recordId);
        && (r.Failure? ==> err == Some(r.error) && Current() == old(Current()) && saved == old(saved))
        && (r == Success(None) ==> err.None? && Current() == old(Current()) && saved == old(saved))
        && (r.Success? && r.value.Some? ==>
              err.None? && records == r.value.value &&
              Current() == old(Current()).(records := records) && saved == Current())
      ensures events == old(events) && dutyCharts == old(dutyCharts)
      ensures old(Valid()) ==> Valid()
    {
      var r := Records.DeleteRecord(records, user, recordId);
      match r
      case Failure(e) =>
        err := Some(e);
      case Success(None) =>
        err := None;
      case Success(Some(rest)) =>
        records := rest;
        saved := Current();
        err := None;
    }

    /** `getDutyChart`: the stored chart, or the seed chart for the date, which is then stored. */
    method GetDutyChart(user: Option<User>, date: string) returns (chart: Option<DutyChart>)
      modifies this
      ensures var r := LoadChart(old(dutyCharts), user, date);
        && (r.None? ==> chart.None? && dutyCharts == old(dutyCharts))
        && (r.Some? ==> chart == Some(r.value.0) && dutyCharts == r.value.1)
      ensures Current() == old(Current()) && saved == old(saved) && events == old(events)
    {
      var r := LoadChart(dutyCharts, user, date);
      if r.None? {
        return None;
      }
      dutyCharts := r.value.1;
      chart := Some(r.value.0);
    }

    /** `updateDutyChart`: the chart is stored under the user's station and the date. */
    method UpdateDutyChart(user: Option<User>, date: string, data: DutyChart) returns (res: Result<DutyChart, ApiError>)
      modifies this
      ensures var r := SaveChart(old(dutyCharts), user, date, data);
        && (r.Failure? ==> res == Failure(r.error) && dutyCharts == old(dutyCharts))
        && (r.Success? ==> res == Success(data) && dutyCharts == r.value)
      ensures Current() == old(Current()) && saved == old(saved) && events == old(events)
    {
      var r := SaveChart(dutyCharts, user, date, data);
      if r.Failure? {
        return Failure(r.error);
      }
      dutyCharts := r.value;
      res := Success(data);
    }

    /** `addNotification`: the notification is appended, persisted and announced. */
    method AddNotification(data: Messaging.NotificationData, now: int) returns (n: Notification)
      modifies this
      ensures n == Messaging.NewNotification(data, now)
      ensures notifications == old(notifications) + [n]
      ensures Current() == old(Current()).(notifications := notifications) && saved == Current()
      ensures events == old(events) + [NotificationAdded(n)] && dutyCharts == old(dutyCharts)
      ensures old(Valid()) ==> Valid()
    {
      n := Messaging.NewNotification(data, now);
      notifications := notifications + [n];
      saved := Current();
      events := events + [NotificationAdded(n)];
    }

    /**
     * `markNotificationsAsRead`: marks the user's unread notifications one by
     * one; only when one changed is the state persisted and the event sent.
     */
    method MarkNotificationsAsRead(userId: string)
      modifies this
      ensures notifications == Messaging.MarkedRead(old(notifications), userId)
      ensures Current() == old(Current()).(notifications := notifications) && dutyCharts == old(dutyCharts)
      ensures Messaging.HasUnreadFor(old(notifications), userId) ==>
        saved == Current() && events == old(events) + [NotificationsRead]
      ensures !Messaging.HasUnreadFor(old(notifications), userId) ==>
        notifications == old(notifications) && saved == old(saved) && events == old(events)
      ensures old(Valid()) ==> Valid()
    {
      var list := notifications;
      var changed := false;
      for i := 0 to |list|
        invariant |list| == |notifications|
        invariant forall k :: 0 <= k < i ==>
          list[k] == if notifications[k].userId == userId then notifications[k].(read := true) else notifications[k]
        invariant forall k :: i <= k < |list| ==> list[k] == notifications[k]
        invariant changed <==> exists k :: 0 <= k < i && notifications[k].userId == userId && !notifications[k].read
      {
        if list[i].userId == userId && !list[i].read {
          list := list[i := list[i].(read := true)];
          changed := true;
        }
      }
      Messaging.MarkedReadSpec(notifications, userId, userId);
      notifications := list;
      if changed {
        saved := Current();
        events := events + [NotificationsRead];
      }
    }

    /** `clearAllNotifications`: drops the user's notifications; persists and announces only when some were dropped. */
    method ClearAllNotifications(userId: string)
      modifies this
      ensures notifications == Messaging.ClearedFor(old(notifications), userId)
      ensures Current() == old(Current()).(notifications := notifications) && dutyCharts == old(dutyCharts)
      ensures |notifications| < |old(notifications)| ==> saved == Current() && events == old(events) + [NotificationsCleared]
      ensures |notifications| == |old(notifications)| ==> saved == old(saved) && events == old(events)
      ensures old(Valid()) ==> Valid()
    {
      var originalLength := |notifications|;
      notifications := Messaging.ClearedFor(notifications, userId);
      if |notifications| < originalLength {
        saved := Current();
        events := events + [NotificationsCleared];
      }
    }

    /**
     * `sendMessage`: an empty message is refused. Otherwise the message is
     * appended; when the sender is a known user the recipient also gets a
     * chat notification, stamped `notifiedAt` and announced first; then the
     * state is persisted and the message announced.
     */
    method SendMessage(fromUserId: string, toUserId: string, content: Messaging.MessageContent, now: int,
                       encode: Messaging.Attachment -> string, notifiedAt: int) returns (res: Result<ChatMessage, ApiError>)
      modifies this
      ensures res == Messaging.NewMessage(fromUserId, toUserId, content, now, encode)
      ensures res.Failure? ==> Current() == old(Current()) && saved == old(saved) && events == old(events)
      ensures res.Success? ==>
        Current() == old(Current()).(chatMessages := old(chatMessages) + [res.value], notifications := notifications) &&
        saved == Current()
      ensures res.Success? ==>
        var notes := Messaging.ChatNotes(users, fromUserId, toUserId, notifiedAt);
        notifications == old(notifications) + notes &&
        events == old(events) + Announced(notes) + [MessageAdded(res.value)]
      ensures dutyCharts == old(dutyCharts)
      ensures old(Valid()) ==> Valid()
    {
      res := Messaging.NewMessage(fromUserId, toUserId, content, now, encode);
      if res.Failure? {
        return;
      }
      var notes := Messaging.ChatNotes(users, fromUserId, toUserId, notifiedAt);
      chatMessages := chatMessages + [res.value];
      notifications := notifications + notes;
      saved := Current();
      events := events + Announced(notes) + [MessageAdded(res.value)];
    }

    /**
     * `markMessagesAsRead(current, other)`: marks the unread messages from
     * `other` to `current` one by one; only when one changed is the state
     * persisted and the event sent.
     */
    method MarkMessagesAsRead(currentUserId: string, otherUserId: string)
      modifies this
      ensures chatMessages == Messaging.MessagesMarkedRead(old(chatMessages), currentUserId, otherUserId)
      ensures Current() == old(Current()).(chatMessages := chatMessages) && dutyCharts == old(dutyCharts)
      ensures Messaging.UnreadFrom(old(chatMessages), currentUserId, otherUserId) > 0 ==>
        saved == Current() && events == old(events) + [MessagesRead(otherUserId, currentUserId)]
      ensures Messaging.UnreadFrom(old(chatMessages), currentUserId, otherUserId) == 0 ==>
        chatMessages == old(chatMessages) && saved == old(saved) && events == old(events)
      ensures old(Valid()) ==> Valid()
    {
      var list := chatMessages;
      var changed := false;
      for i := 0 to |list|
        invariant |list| == |chatMessages|
        invariant forall k :: 0 <= k < i ==>
          list[k] == if Messaging.UnreadBetween(chatMessages[k], otherUserId, currentUserId)
                     then chatMessages[k].(read := true) else chatMessages[k]
        invariant forall k :: i <= k < |list| ==> list[k] == chatMessages[k]
        invariant changed <==> exists k :: 0 <= k < i && Messaging.UnreadBetween(chatMessages[k], otherUserId, currentUserId)
      {
        if list[i].fromUserId == otherUserId && list[i].toUserId == currentUserId && !list[i].read {
          list := list[i := list[i].(read := true)];
          changed := true;
        }
      }
      Messaging.MarkMessagesReadSpec(chatMessages, currentUserId, otherUserId, otherUserId);
      chatMessages := list;
      if changed {
        saved := Current();
        events := events + [MessagesRead(otherUserId, currentUserId)];
      }
    }

    /** `getUnreadMessageCounts(currentUserId)`: unread messages to the user, by sender. */
    method GetUnreadMessageCounts(currentUserId: string) returns (counts: map<string, nat>)
      ensures forall s :: s in counts <==> Messaging.UnreadFrom(chatMessages, currentUserId, s) > 0
      ensures forall s :: s in counts ==> counts[s] == Messaging.UnreadFrom(chatMessages, currentUserId, s)
    {
      counts := Messaging.UnreadCounts(chatMessages, currentUserId);
    }
  }
}
