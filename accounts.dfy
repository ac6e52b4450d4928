/**
 * Who may sign in, registration of new users, profile and password changes,
 * and the switching of police stations on and off. Passwords are kept apart
 * from the users, keyed by SSO id. The class `Store.Database` applies these
 * to its state.
 */
module Accounts {
  import opened Wrappers
  import opened Entities
  import opened Errors
  import Strings
  import Seqs

  // ---------------------------------------------------------------------
  // stations

  /** `stations.find(s => s.id === stationId)`; a `null` station id finds nothing. */
  function FindStation(stations: seq<Station>, stationId: Option<string>): (r: Option<Station>)
    ensures r.Some? ==> r.value in stations && stationId == Some(r.value.id)
    ensures r.None? <==> forall k :: 0 <= k < |stations| ==> stationId != Some(stations[k].id)
  {
    Seqs.Find(stations, (s: Station) => stationId == Some(s.id))
  }

  /** `stations.findIndex(s => s.id === stationId)`. */
  function StationIndex(stations: seq<Station>, stationId: string): (i: Option<nat>)
    ensures i.Some? ==> i.value < |stations| && stations[i.value].id == stationId
    ensures i.Some? ==> forall k :: 0 <= k < i.value ==> stations[k].id != stationId
    ensures i.None? <==> forall k :: 0 <= k < |stations| ==> stations[k].id != stationId
  {
    Seqs.FirstIndex(stations, (s: Station) => s.id == stationId)
  }

  /**
   * `updateStationStatus(stationId, isActive)`: the first station with that
   * id gets the new flag; nothing else changes.
   */
  function UpdateStationStatus(stations: seq<Station>, stationId: string, isActive: bool)
    : (res: Result<(seq<Station>, Station), ApiError>)
    ensures res.Failure? <==> StationIndex(stations, stationId).None?
    ensures res.Failure? ==> res.error == StationNotFound
    ensures res.Success? ==>
      var i := StationIndex(stations, stationId).value;
      && |res.value.0| == |stations|
      && res.value.1 == res.value.0[i] == Station(stationId, stations[i].name, isActive)
      && (forall k :: 0 <= k < |stations| && k != i ==> res.value.0[k] == stations[k])
  {
    match StationIndex(stations, stationId)
    case None => Failure(StationNotFound)
    case Some(i) =>
      var s := stations[i].(isActive := isActive);
      Success((stations[i := s], s))
  }

  /** After a status update, looking the station up finds it with the new flag. */
  lemma {:induction false} StatusUpdateFound(stations: seq<Station>, stationId: string, isActive: bool)
    requires UpdateStationStatus(stations, stationId, isActive).Success?
    ensures var updated := UpdateStationStatus(stations, stationId, isActive).value.0;
      FindStation(updated, Some(stationId)) == Some(Station(stationId, FindStation(stations, Some(stationId)).value.name, isActive))
  {
    var i := StationIndex(stations, stationId).value;
    var updated := UpdateStationStatus(stations, stationId, isActive).value.0;
    FirstMatchIs(stations, stationId, i);
    FirstMatchIs(updated, stationId, i);
  }

  /** When the first station with an id sits at `i`, the lookup by that id returns it. */
  lemma {:induction false} FirstMatchIs(stations: seq<Station>, stationId: string, i: nat)
    requires i < |stations| && stations[i].id == stationId
    requires forall k :: 0 <= k < i ==> stations[k].id != stationId
    ensures FindStation(stations, Some(stationId)) == Some(stations[i])
  {
    var p := (s: Station) => Some(stationId) == Some(s.id);
    assert p(stations[i]);
  }

  // ---------------------------------------------------------------------
  // login

  /** `users.find(u => u.ssoId === id || u.email === id)`, as an index. */
  function LoginIndex(users: seq<User>, ssoIdOrEmail: string): (i: Option<nat>)
    ensures i.Some? ==> i.value < |users| && (users[i.value].ssoId == ssoIdOrEmail || users[i.value].email == ssoIdOrEmail)
    ensures i.Some? ==> forall k :: 0 <= k < i.value ==> users[k].ssoId != ssoIdOrEmail && users[k].email != ssoIdOrEmail
    ensures i.None? <==> forall k :: 0 <= k < |users| ==> users[k].ssoId != ssoIdOrEmail && users[k].email != ssoIdOrEmail
  {
    Seqs.FirstIndex(users, (u: User) => u.ssoId == ssoIdOrEmail || u.email == ssoIdOrEmail)
  }

  /** `passwords[ssoId] === password`; a user without a stored password never matches. */
  predicate PasswordMatches(passwords: map<string, string>, ssoId: string, password: string) {
    ssoId in passwords && passwords[ssoId] == password
  }

  /**
   * `login(ssoIdOrEmail, password)`. The first user whose SSO id or email is
   * the input must have that password; a user other than the admin also needs
   * an existing, active station, whose name is then recorded on the stored
   * user. The result is the index of the user and the user as returned.
   */
  function Login(users: seq<User>, passwords: map<string, string>, stations: seq<Station>,
                 ssoIdOrEmail: string, password: string): (r: Option<(nat, User)>)
    ensures r.Some? ==>
      && LoginIndex(users, ssoIdOrEmail) == Some(r.value.0)
      && PasswordMatches(passwords, users[r.value.0].ssoId, password)
    ensures r.Some? && IsAdmin(users[r.value.0]) ==> r.value.1 == users[r.value.0]
    ensures r.Some? && !IsAdmin(users[r.value.0]) ==>
      var st := FindStation(stations, users[r.value.0].stationId);
      st.Some? && st.value.isActive && r.value.1 == users[r.value.0].(stationName := Some(st.value.name))
    ensures r.None? ==>
      || LoginIndex(users, ssoIdOrEmail).None?
      || !PasswordMatches(passwords, users[LoginIndex(users, ssoIdOrEmail).value].ssoId, password)
      || (!IsAdmin(users[LoginIndex(users, ssoIdOrEmail).value]) &&
          var st := FindStation(stations, users[LoginIndex(users, ssoIdOrEmail).value].stationId);
          st.None? || !st.value.isActive)
  {
    match LoginIndex(users, ssoIdOrEmail)
    case None => None
    case Some(i) =>
      var u := users[i];
      if !PasswordMatches(passwords, u.ssoId, password) then None
      else if IsAdmin(u) then Some((i, u))
      else match FindStation(stations, u.stationId)
        case None => None
        case Some(st) => if !st.isActive then None else Some((i, u.(stationName := Some(st.name))))
  }

  /** Switching a station off locks its officers out, whatever their password. */
  lemma DeactivationBlocksLogin(users: seq<User>, passwords: map<string, string>, stations: seq<Station>,
                                stationId: string, ssoIdOrEmail: string, password: string)
    requires UpdateStationStatus(stations, stationId, false).Success?
    requires LoginIndex(users, ssoIdOrEmail).Some?
    requires var u := users[LoginIndex(users, ssoIdOrEmail).value]; !IsAdmin(u) && u.stationId == Some(stationId)
    ensures Login(users, passwords, UpdateStationStatus(stations, stationId, false).value.0, ssoIdOrEmail, password).None?
  {
    StatusUpdateFound(stations, stationId, false);
  }

  /** Switching it back on lets them in again, with the station's name. */
  lemma ReactivationRestoresLogin(users: seq<User>, passwords: map<string, string>, stations: seq<Station>,
                                  stationId: string, ssoIdOrEmail: string, password: string)
    requires UpdateStationStatus(stations, stationId, true).Success?
    requires LoginIndex(users, ssoIdOrEmail).Some?
    requires var u := users[LoginIndex(users, ssoIdOrEmail).value];
      !IsAdmin(u) && u.stationId == Some(stationId) && PasswordMatches(passwords, u.ssoId, password)
    ensures Login(users, passwords, UpdateStationStatus(stations, stationId, true).value.0, ssoIdOrEmail, password).Some?
  {
    StatusUpdateFound(stations, stationId, true);
  }

  // ---------------------------------------------------------------------
  // registration

  /** The registration form: every user field but the id, plus the password. */
  datatype Registration = Registration(
    name: string,
    role: Role,
    stationId: Option<string>,
    stationName: string,
    ssoId: string,
    email: string,
    mobile: string,
    designation: string,
    password: string)

  /** Some existing user already has the SSO id or the email. */
  predicate Conflicts(users: seq<User>, data: Registration) {
    exists k :: 0 <= k < |users| && (users[k].ssoId == data.ssoId || users[k].email == data.email)
  }

  /** `{ id: 'user_<now>', ...data }`: the form's fields, the password among them. */
  function NewUser(data: Registration, now: int): (u: User)
    ensures u.id == "user_" + Strings.IntToString(now)
    ensures u.ssoId == data.ssoId && u.email == data.email && u.role == data.role && u.stationId == data.stationId
    ensures u.stationName == Some(data.stationName) && u.password == Some(data.password)
    ensures u.name == data.name && u.mobile == data.mobile && u.designation == data.designation
  {
    User("user_" + Strings.IntToString(now), data.name, data.role, data.stationId, Some(data.stationName),
         data.ssoId, data.email, data.mobile, data.designation, Some(data.password))
  }

  /**
   * `registerUser(data)`: refused when an existing user shares the SSO id or
   * the email; otherwise one user is appended and the password is stored
   * under the SSO id.
   */
  function RegisterUser(users: seq<User>, passwords: map<string, string>, data: Registration, now: int)
    : (res: Result<(seq<User>, map<string, string>, User), ApiError>)
    ensures res.Failure? <==> Conflicts(users, data)
    ensures res.Failure? ==> res.error == UserExists
    ensures res.Success? ==>
      && res.value.0 == users + [res.value.2]
      && res.value.2 == NewUser(data, now)
      && res.value.1.Keys == passwords.Keys + {data.ssoId}
      && res.value.1[data.ssoId] == data.password
      && (forall s :: s in passwords && s != data.ssoId ==> res.value.1[s] == passwords[s])
  {
    if Conflicts(users, data) then Failure(UserExists)
    else
      var u := NewUser(data, now);
      Success((users + [u], passwords[data.ssoId := data.password], u))
  }

  /**
   * A newly registered user can sign in with their SSO id and password,
   * provided no earlier user has that SSO id as email and, for a station
   * user, the station exists and is active.
   */
  lemma RegisteredUserCanLogin(users: seq<User>, passwords: map<string, string>, stations: seq<Station>,
                               data: Registration, now: int)
    requires RegisterUser(users, passwords, data, now).Success?
    requires forall k :: 0 <= k < |users| ==> users[k].email != data.ssoId
    requires data.role != Admin ==>
      var st := FindStation(stations, data.stationId); st.Some? && st.value.isActive
    ensures var res := RegisterUser(users, passwords, data, now).value;
      Login(res.0, res.1, stations, data.ssoId, data.password).Some? &&
      Login(res.0, res.1, stations, data.ssoId, data.password).value.0 == |users|
  {
    var res := RegisterUser(users, passwords, data, now).value;
    assert res.0[|users|].ssoId == data.ssoId;
  }

  // ---------------------------------------------------------------------
  // profile updates

  /** The fields a profile update may set; `None` leaves a field out of the update object. */
  datatype UserUpdates = UserUpdates(
    name: Option<string>,
    role: Option<Role>,
    stationId: Option<Option<string>>,
    stationName: Option<string>,
    email: Option<string>,
    mobile: Option<string>,
    designation: Option<string>)

  /** The old value, or the update's when it has one. */
  function Pick<T>(current: T, update: Option<T>): (r: T)
    ensures update.Some? ==> r == update.value
    ensures update.None? ==> r == current
  {
    if update.Some? then update.value else current
  }

  /** `{ ...user, ...updates }`: the id, the SSO id and any stored password are kept. */
  function ApplyUpdates(u: User, updates: UserUpdates): (r: User)
    ensures r.id == u.id && r.ssoId == u.ssoId && r.password == u.password
    ensures updates.name.Some? ==> r.name == updates.name.value
    ensures updates.name.None? ==> r.name == u.name
    ensures updates.email.Some? ==> r.email == updates.email.value
    ensures updates.email.None? ==> r.email == u.email
    ensures updates.role.Some? ==> r.role == updates.role.value
    ensures updates.role.None? ==> r.role == u.role
    ensures updates.stationId.Some? ==> r.stationId == updates.stationId.value
    ensures updates.stationId.None? ==> r.stationId == u.stationId
    ensures updates.stationName.Some? ==> r.stationName == Some(updates.stationName.value)
    ensures updates.stationName.None? ==> r.stationName == u.stationName
    ensures updates.mobile.Some? ==> r.mobile == updates.mobile.value
    ensures updates.mobile.None? ==> r.mobile == u.mobile
    ensures updates.designation.Some? ==> r.designation == updates.designation.value
    ensures updates.designation.None? ==> r.designation == u.designation
  {
    User(u.id, Pick(u.name, updates.name), Pick(u.role, updates.role), Pick(u.stationId, updates.stationId),
         if updates.stationName.Some? then Some(updates.stationName.value) else u.stationName,
         u.ssoId, Pick(u.email, updates.email), Pick(u.mobile, updates.mobile),
         Pick(u.designation, updates.designation), u.password)
  }

  /**
   * The merged user as finally stored: a user other than the admin whose
   * update carries no (or an empty) station name gets the name of the
   * station their station id finds, when it finds one.
   */
  function ProfileUser(stations: seq<Station>, u: User, updates: UserUpdates): (r: User)
    ensures r.id == u.id && r.ssoId == u.ssoId
    ensures r == ApplyUpdates(u, updates) || r == ApplyUpdates(u, updates).(stationName := r.stationName)
    ensures updates.stationName.Some? && updates.stationName.value != "" ==> r.stationName == updates.stationName
    ensures var m := ApplyUpdates(u, updates);
      m.role != Admin && (updates.stationName.None? || updates.stationName.value == "") &&
      FindStation(stations, m.stationId).Some? ==>
        r.stationName == Some(FindStation(stations, m.stationId).value.name)
    ensures var m := ApplyUpdates(u, updates);
      (m.role == Admin || (updates.stationName.Some? && updates.stationName.value != "") ||
       FindStation(stations, m.stationId).None?) ==> r == m
  {
    var merged := ApplyUpdates(u, updates);
    if merged.role != Admin && (updates.stationName.None? || updates.stationName.value == "") then
      match FindStation(stations, merged.stationId)
      case None => merged
      case Some(st) => merged.(stationName := Some(st.name))
    else merged
  }

  /** The password part of a profile update. */
  datatype PasswordChange = PasswordChange(currentPassword: string, newPassword: string)

  /** `users.findIndex(u => u.id === userId)`. */
  function UserIndex(users: seq<User>, userId: string): (i: Option<nat>)
    ensures i.Some? ==> i.value < |users| && users[i.value].id == userId
    ensures i.Some? ==> forall k :: 0 <= k < i.value ==> users[k].id != userId
    ensures i.None? <==> forall k :: 0 <= k < |users| ==> users[k].id != userId
  {
    Seqs.FirstIndex(users, (u: User) => u.id == userId)
  }

  /**
   * `updateUserProfile(userId, updates, passwordData)`. An unknown user is
   * refused first. A non-empty new password needs a non-empty current
   * password, and then the right one, before it replaces the stored one.
   * On success only the user's entry changes.
   */
  function UpdateUserProfile(users: seq<User>, passwords: map<string, string>, stations: seq<Station>,
                             userId: string, updates: UserUpdates, change: PasswordChange)
    : (res: Result<(seq<User>, map<string, string>, User), ApiError>)
    ensures UserIndex(users, userId).None? ==> res == Failure(UserNotFound)
    ensures UserIndex(users, userId).Some? ==>
      var i := UserIndex(users, userId).value;
      var ssoId := users[i].ssoId;
      if change.newPassword != "" && change.currentPassword == "" then res == Failure(CurrentPasswordRequired)
      else if change.newPassword != "" && !PasswordMatches(passwords, ssoId, change.currentPassword) then
        res == Failure(IncorrectCurrentPassword)
      else
        && res.Success?
        && res.value.0 == users[i := res.value.2]
        && res.value.2 == ProfileUser(stations, users[i], updates)
        && res.value.1 == (if change.newPassword != "" then passwords[ssoId := change.newPassword] else passwords)
  {
    match UserIndex(users, userId)
    case None => Failure(UserNotFound)
    case Some(i) =>
      var u := users[i];
      if change.newPassword != "" && change.currentPassword == "" then Failure(CurrentPasswordRequired)
      else if change.newPassword != "" && !PasswordMatches(passwords, u.ssoId, change.currentPassword) then
        Failure(IncorrectCurrentPassword)
      else
        var pw := if change.newPassword != "" then passwords[u.ssoId := change.newPassword] else passwords;
        var updated := ProfileUser(stations, u, updates);
        Success((users[i := updated], pw, updated))
  }

  /** After a password change the new password, and not the old one, lets the user through the password check. */
  lemma PasswordChangeTakesEffect(users: seq<User>, passwords: map<string, string>, stations: seq<Station>,
                                  userId: string, updates: UserUpdates, change: PasswordChange)
    requires UpdateUserProfile(users, passwords, stations, userId, updates, change).Success?
    requires change.newPassword != "" && change.newPassword != change.currentPassword
    ensures var res := UpdateUserProfile(users, passwords, stations, userId, updates, change).value;
      PasswordMatches(res.1, res.2.ssoId, change.newPassword) &&
      !PasswordMatches(res.1, res.2.ssoId, change.currentPassword) &&
      PasswordMatches(passwords, res.2.ssoId, change.currentPassword)
  {
  }

  /** Without a new password the stored passwords are untouched, whatever the current password field holds. */
  lemma NoNewPasswordNoCheck(users: seq<User>, passwords: map<string, string>, stations: seq<Station>,
                             userId: string, updates: UserUpdates, current: string)
    requires UserIndex(users, userId).Some?
    ensures var res := UpdateUserProfile(users, passwords, stations, userId, updates, PasswordChange(current, ""));
      res.Success? && res.value.1 == passwords
  {
  }

  // ---------------------------------------------------------------------
  // user list

  /**
   * `getAllUsers()`: every user with a display station name, which is the
   * station's name (or 'N/A' when none is found or it is empty) for a user
   * with a station id, and 'N/A (Admin)' otherwise.
   */
  function AllUsers(users: seq<User>, stations: seq<Station>): (r: seq<User>)
    ensures |r| == |users|
    ensures forall k :: 0 <= k < |users| ==> r[k] == users[k].(stationName := r[k].stationName)
    ensures forall k :: 0 <= k < |users| && !HasStation(users[k]) ==> r[k].stationName == Some("N/A (Admin)")
    ensures forall k :: 0 <= k < |users| && HasStation(users[k]) ==>
      var st := FindStation(stations, users[k].stationId);
      r[k].stationName == Some(if st.Some? && st.value.name != "" then st.value.name else "N/A")
  {
    seq(|users|, k requires 0 <= k < |users| =>
      var u := users[k];
      var shown :=
        if !HasStation(u) then "N/A (Admin)"
        else match FindStation(stations, u.stationId)
          case Some(st) => if st.name != "" then st.name else "N/A"
          case None => "N/A";
      u.(stationName := Some(shown)))
  }
}
