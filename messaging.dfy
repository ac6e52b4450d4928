/**
 * Notifications and one-to-one chat, stated on the stored lists: what a new
 * notification or message looks like, which entries a user sees and in what
 * order, and what marking as read or clearing does to the lists. The class
 * `Store.Database` applies these to its state.
 */
module Messaging {
  import opened Wrappers
  import opened Entities
  import opened Errors
  import Strings
  import Seqs

  // ---------------------------------------------------------------------
  // notifications

  /** The caller-supplied part of a notification. */
  datatype NotificationData = NotificationData(userId: string, kind: NotificationType, message: string, link: Option<string>)

  /** `{ id: 'notif_<now>', timestamp: now, read: false, ...data }`. */
  function NewNotification(data: NotificationData, now: int): (n: Notification)
    ensures n.userId == data.userId && n.kind == data.kind && n.message == data.message && n.link == data.link
    ensures n.id == "notif_" + Strings.IntToString(now) && n.timestamp == now && !n.read
  {
    Notification("notif_" + Strings.IntToString(now), data.userId, data.kind, data.message, data.link, now, false)
  }

  /** Newest first: `a` goes after `b` when it is older. */
  function NewestFirst(): (Notification, Notification) -> bool
    ensures forall a: Notification, b: Notification :: NewestFirst()(a, b) == (a.timestamp < b.timestamp)
  {
    (a: Notification, b: Notification) => a.timestamp < b.timestamp
  }

  lemma NewestFirstIsWeakOrder()
    ensures Seqs.StrictWeakOrder(NewestFirst())
  {
  }

  /** `getNotifications(userId)`: the user's notifications, newest first, equal timestamps in storage order. */
  function NotificationsFor(notifications: seq<Notification>, userId: string): (r: seq<Notification>)
    ensures |r| == Seqs.Count(notifications, (n: Notification) => n.userId == userId)
  {
    var mine := Seqs.Filter(notifications, (n: Notification) => n.userId == userId);
    Seqs.CountIsFilterLength(notifications, (n: Notification) => n.userId == userId);
    Seqs.Sort(mine, NewestFirst())
  }

  /** The listing holds exactly the user's notifications, each as often as stored, newest first. */
  lemma NotificationsForSpec(notifications: seq<Notification>, userId: string)
    ensures var r := NotificationsFor(notifications, userId);
      && multiset(r) == multiset(Seqs.Filter(notifications, (n: Notification) => n.userId == userId))
      && (forall i, j :: 0 <= i < j < |r| ==> r[i].timestamp >= r[j].timestamp)
      && (forall k :: 0 <= k < |r| ==> r[k].userId == userId)
  {
    var mine := Seqs.Filter(notifications, (n: Notification) => n.userId == userId);
    var r := NotificationsFor(notifications, userId);
    Seqs.SortPermutation(mine, NewestFirst());
    NewestFirstIsWeakOrder();
    Seqs.SortSorted(mine, NewestFirst());
    forall k | 0 <= k < |r| ensures r[k].userId == userId {
      assert r[k] in multiset(mine);
    }
  }

  /** The user has an unread notification. */
  predicate HasUnreadFor(notifications: seq<Notification>, userId: string) {
    exists k :: 0 <= k < |notifications| && notifications[k].userId == userId && !notifications[k].read
  }

  /** The lists after `markNotificationsAsRead(userId)`: the user's entries read, all else as it was. */
  function MarkedRead(notifications: seq<Notification>, userId: string): (r: seq<Notification>)
    ensures |r| == |notifications|
    ensures forall k :: 0 <= k < |r| ==>
      r[k] == (if notifications[k].userId == userId then notifications[k].(read := true) else notifications[k])
  {
    seq(|notifications|, k requires 0 <= k < |notifications| =>
      if notifications[k].userId == userId then notifications[k].(read := true) else notifications[k])
  }

  /** Marking as read leaves the user nothing unread, changes nothing when nothing was unread, and leaves every other user's entries as they were. */
  lemma MarkedReadSpec(notifications: seq<Notification>, userId: string, other: string)
    ensures !HasUnreadFor(MarkedRead(notifications, userId), userId)
    ensures !HasUnreadFor(notifications, userId) ==> MarkedRead(notifications, userId) == notifications
    ensures other != userId ==>
      Seqs.Filter(MarkedRead(notifications, userId), (n: Notification) => n.userId == other) ==
      Seqs.Filter(notifications, (n: Notification) => n.userId == other)
  {
    if other != userId {
      FilterUnmarked(notifications, userId, other);
    }
  }

  lemma {:induction false} FilterUnmarked(notifications: seq<Notification>, userId: string, other: string)
    requires other != userId
    ensures Seqs.Filter(MarkedRead(notifications, userId), (n: Notification) => n.userId == other) ==
            Seqs.Filter(notifications, (n: Notification) => n.userId == other)
    decreases |notifications|
  {
    if notifications != [] {
      var front := notifications[..|notifications| - 1];
      FilterUnmarked(front, userId, other);
      assert MarkedRead(notifications, userId)[..|notifications| - 1] == MarkedRead(front, userId);
    }
  }

  /** The lists after `clearAllNotifications(userId)`: every other user's entries, in order. */
  function ClearedFor(notifications: seq<Notification>, userId: string): (r: seq<Notification>)
    ensures forall n :: n in r <==> n in notifications && n.userId != userId
    ensures |r| < |notifications| <==> exists k :: 0 <= k < |notifications| && notifications[k].userId == userId
  {
    var p := (n: Notification) => n.userId != userId;
    var r := Seqs.Filter(notifications, p);
    Seqs.CountIsFilterLength(notifications, p);
    CountBelowLength(notifications, p);
    r
  }

  /**
   * Clearing keeps the other users' notifications in their stored order and
   * with their multiplicity: it works entry by entry, and each entry of
   * another user stays as often as it was stored.
   */
  lemma ClearedForSpec(a: seq<Notification>, b: seq<Notification>, n: Notification, userId: string)
    ensures ClearedFor(a + b, userId) == ClearedFor(a, userId) + ClearedFor(b, userId)
    ensures ClearedFor([n], userId) == if n.userId != userId then [n] else []
    ensures multiset(ClearedFor(a, userId))[n] == if n.userId != userId then multiset(a)[n] else 0
  {
    var p := (x: Notification) => x.userId != userId;
    Seqs.FilterAppend(a, b, p);
    Seqs.FilterSingleton(n, p);
    Seqs.FilterMultiset(a, p, n);
  }

  /** Fewer elements satisfy `p` than there are exactly when some element does not. */
  lemma {:induction false} CountBelowLength<T>(s: seq<T>, p: T -> bool)
    ensures Seqs.Count(s, p) < |s| <==> exists k :: 0 <= k < |s| && !p(s[k])
    decreases |s|
  {
    if s != [] {
      var front := s[..|s| - 1];
      CountBelowLength(front, p);
      if exists k :: 0 <= k < |front| && !p(front[k]) {
        var k :| 0 <= k < |front| && !p(front[k]);
        assert s[k] == front[k];
      }
      if exists k :: 0 <= k < |s| && !p(s[k]) {
        var k :| 0 <= k < |s| && !p(s[k]);
        if k < |front| { assert front[k] == s[k]; }
      }
    }
  }

  /** `notifications.filter(n => !n.read).length`, the unread badge count. */
  function UnreadNotifications(notifications: seq<Notification>): (n: nat)
    ensures n == 0 <==> forall k :: 0 <= k < |notifications| ==> notifications[k].read
  {
    Seqs.Count(notifications, (x: Notification) => !x.read)
  }

  /** After marking as read, the user's own listing shows no unread notification. */
  lemma NoUnreadAfterMarkRead(notifications: seq<Notification>, userId: string)
    ensures UnreadNotifications(NotificationsFor(MarkedRead(notifications, userId), userId)) == 0
  {
    var marked := MarkedRead(notifications, userId);
    var r := NotificationsFor(marked, userId);
    forall k | 0 <= k < |r| ensures r[k].read {
      ListedIsStored(marked, userId, r[k]);
      var j :| 0 <= j < |marked| && marked[j] == r[k];
    }
  }

  /** Whatever the user's listing shows is one of the user's stored notifications. */
  lemma ListedIsStored(notifications: seq<Notification>, userId: string, x: Notification)
    requires x in NotificationsFor(notifications, userId)
    ensures x in notifications && x.userId == userId
  {
    var mine := Seqs.Filter(notifications, (n: Notification) => n.userId == userId);
    NotificationsForSpec(notifications, userId);
    assert x in multiset(mine);
    var i :| 0 <= i < |mine| && mine[i] == x;
  }

  // ---------------------------------------------------------------------
  // chat

  /** Oldest first: `a` goes after `b` when it is newer. */
  function OldestFirst(): (ChatMessage, ChatMessage) -> bool
    ensures forall a: ChatMessage, b: ChatMessage :: OldestFirst()(a, b) == (a.timestamp > b.timestamp)
  {
    (a: ChatMessage, b: ChatMessage) => a.timestamp > b.timestamp
  }

  lemma OldestFirstIsWeakOrder()
    ensures Seqs.StrictWeakOrder(OldestFirst())
  {
  }

  /** The message passes between the two users, in either direction. */
  predicate Between(m: ChatMessage, user1: string, user2: string) {
    (m.fromUserId == user1 && m.toUserId == user2) || (m.fromUserId == user2 && m.toUserId == user1)
  }

  /** `getChatHistory(user1, user2)`: the conversation, oldest first, equal timestamps in storage order. */
  function ChatHistory(messages: seq<ChatMessage>, user1: string, user2: string): (r: seq<ChatMessage>)
    ensures |r| <= |messages|
  {
    Seqs.Sort(Seqs.Filter(messages, (m: ChatMessage) => Between(m, user1, user2)), OldestFirst())
  }

  /** The history holds exactly the conversation's messages, oldest first, and does not depend on who asks. */
  lemma ChatHistorySpec(messages: seq<ChatMessage>, user1: string, user2: string)
    ensures var r := ChatHistory(messages, user1, user2);
      && multiset(r) == multiset(Seqs.Filter(messages, (m: ChatMessage) => Between(m, user1, user2)))
      && (forall i, j :: 0 <= i < j < |r| ==> r[i].timestamp <= r[j].timestamp)
    ensures ChatHistory(messages, user1, user2) == ChatHistory(messages, user2, user1)
  {
    var p := (m: ChatMessage) => Between(m, user1, user2);
    Seqs.SortPermutation(Seqs.Filter(messages, p), OldestFirst());
    OldestFirstIsWeakOrder();
    Seqs.SortSorted(Seqs.Filter(messages, p), OldestFirst());
    Seqs.FilterCongruent(messages, p, (m: ChatMessage) => Between(m, user2, user1));
  }

  /** An attached file: its name, MIME type and contents. */
  datatype Attachment = Attachment(name: string, mimeType: string, contents: seq<int>)

  /** What the sender typed and attached. */
  datatype MessageContent = MessageContent(text: Option<string>, file: Option<Attachment>)

  /** `!content.text && !content.file`: no text (or empty text) and no file. */
  predicate IsEmptyContent(content: MessageContent) {
    (content.text.None? || content.text.value == "") && content.file.None?
  }

  /**
   * The message `sendMessage` stores: unread, stamped `now`, the text as
   * given, and for a file its data URI (`encode`), name and type.
   */
  function NewMessage(fromUserId: string, toUserId: string, content: MessageContent, now: int,
                      encode: Attachment -> string): (res: Result<ChatMessage, ApiError>)
    ensures res.Failure? <==> IsEmptyContent(content)
    ensures res.Failure? ==> res.error == EmptyMessage
    ensures res.Success? ==>
      var m := res.value;
      && m.fromUserId == fromUserId && m.toUserId == toUserId && m.text == content.text
      && !m.read && m.timestamp == now && m.id == "msg_" + Strings.IntToString(now)
      && (m.file.Some? <==> content.file.Some?)
      && (content.file.Some? ==>
            m.file == Some(encode(content.file.value)) &&
            m.fileName == Some(content.file.value.name) && m.fileType == Some(content.file.value.mimeType))
  {
    if IsEmptyContent(content) then Failure(EmptyMessage)
    else
      var base := ChatMessage("msg_" + Strings.IntToString(now), fromUserId, toUserId, content.text,
                              None, None, None, now, false);
      match content.file
      case None => Success(base)
      case Some(f) => Success(base.(file := Some(encode(f)), fileName := Some(f.name), fileType := Some(f.mimeType)))
  }

  /** The chat notification the recipient gets when the sender is a known user. */
  function ChatNotification(senderName: string, toUserId: string, now: int): (n: Notification)
    ensures n.userId == toUserId && n.kind == Chat && !n.read && n.timestamp == now
    ensures n.message == "New message from " + senderName
  {
    Notification("notif_" + Strings.IntToString(now) + "_chat", toUserId, Chat,
                 "New message from " + senderName, None, now, false)
  }

  /** `users.find(u => u.id === userId)`. */
  function FindUser(users: seq<User>, userId: string): (r: Option<User>)
    ensures r.Some? ==> r.value in users && r.value.id == userId
    ensures r.None? <==> forall k :: 0 <= k < |users| ==> users[k].id != userId
  {
    Seqs.Find(users, (u: User) => u.id == userId)
  }

  /**
   * The notifications a sent message adds: one chat notification for the
   * recipient when the sender is a known user, none otherwise.
   */
  function ChatNotes(users: seq<User>, fromUserId: string, toUserId: string, now: int): (notes: seq<Notification>)
    ensures |notes| <= 1
    ensures notes == [] <==> forall k :: 0 <= k < |users| ==> users[k].id != fromUserId
    ensures notes != [] ==> notes[0].userId == toUserId && notes[0].kind == Chat && !notes[0].read
  {
    match FindUser(users, fromUserId)
    case None => []
    case Some(sender) => [ChatNotification(sender.name, toUserId, now)]
  }

  /** The message is an unread one from `sender` to `recipient`. */
  predicate UnreadBetween(m: ChatMessage, sender: string, recipient: string) {
    m.fromUserId == sender && m.toUserId == recipient && !m.read
  }

  /** The number of unread messages from `sender` to `recipient`. */
  function UnreadFrom(messages: seq<ChatMessage>, recipient: string, sender: string): (n: nat)
    ensures n == 0 <==> forall k :: 0 <= k < |messages| ==> !UnreadBetween(messages[k], sender, recipient)
  {
    Seqs.Count(messages, (m: ChatMessage) => UnreadBetween(m, sender, recipient))
  }

  /** The messages after `markMessagesAsRead(current, other)`: the unread ones from `other` to `current` read. */
  function MessagesMarkedRead(messages: seq<ChatMessage>, currentUserId: string, otherUserId: string): (r: seq<ChatMessage>)
    ensures |r| == |messages|
    ensures forall k :: 0 <= k < |r| ==>
      r[k] == (if UnreadBetween(messages[k], otherUserId, currentUserId) then messages[k].(read := true) else messages[k])
  {
    seq(|messages|, k requires 0 <= k < |messages| =>
      if UnreadBetween(messages[k], otherUserId, currentUserId) then messages[k].(read := true) else messages[k])
  }

  /**
   * Marking a conversation as read clears its unread count, leaves every
   * other sender's count alone, and is a no-op when nothing was unread.
   */
  lemma MarkMessagesReadSpec(messages: seq<ChatMessage>, currentUserId: string, otherUserId: string, sender: string)
    ensures UnreadFrom(MessagesMarkedRead(messages, currentUserId, otherUserId), currentUserId, otherUserId) == 0
    ensures sender != otherUserId ==>
      UnreadFrom(MessagesMarkedRead(messages, currentUserId, otherUserId), currentUserId, sender) ==
      UnreadFrom(messages, currentUserId, sender)
    ensures UnreadFrom(messages, currentUserId, otherUserId) == 0 ==>
      MessagesMarkedRead(messages, currentUserId, otherUserId) == messages
  {
    var r := MessagesMarkedRead(messages, currentUserId, otherUserId);
    if sender != otherUserId {
      Seqs.CountCongruent(r, messages, (m: ChatMessage) => UnreadBetween(m, sender, currentUserId),
                          (m: ChatMessage) => UnreadBetween(m, sender, currentUserId));
    }
  }

  /** Sending a message adds one to the recipient's unread count for the sender. */
  lemma UnreadAfterSend(messages: seq<ChatMessage>, m: ChatMessage)
    requires !m.read
    ensures UnreadFrom(messages + [m], m.toUserId, m.fromUserId) == UnreadFrom(messages, m.toUserId, m.fromUserId) + 1
  {
    var p := (x: ChatMessage) => UnreadBetween(x, m.fromUserId, m.toUserId);
    Seqs.CountAppend(messages, [m], p);
    assert [m][..0] == [];
  }

  /** One more message adds one to a sender's count exactly when it is unread from that sender. */
  lemma UnreadFromSnoc(messages: seq<ChatMessage>, m: ChatMessage, recipient: string, sender: string)
    ensures UnreadFrom(messages + [m], recipient, sender) ==
      UnreadFrom(messages, recipient, sender) + (if UnreadBetween(m, sender, recipient) then 1 else 0)
  {
    var p := (x: ChatMessage) => UnreadBetween(x, sender, recipient);
    Seqs.CountAppend(messages, [m], p);
    assert [m][..0] == [];
  }

  /** The count map built message by message, as `getUnreadMessageCounts` builds it. */
  function UnreadCountMap(messages: seq<ChatMessage>, currentUserId: string): map<string, nat>
    decreases |messages|
  {
    if messages == [] then map[]
    else
      var counts := UnreadCountMap(messages[..|messages| - 1], currentUserId);
      var m := messages[|messages| - 1];
      if m.toUserId == currentUserId && !m.read then
        counts[m.fromUserId := (if m.fromUserId in counts then counts[m.fromUserId] else 0) + 1]
      else counts
  }

  /** The count map holds exactly the senders with unread messages, each with its number. */
  lemma {:induction false} UnreadCountMapSpec(messages: seq<ChatMessage>, currentUserId: string, sender: string)
    ensures sender in UnreadCountMap(messages, currentUserId) <==> UnreadFrom(messages, currentUserId, sender) > 0
    ensures sender in UnreadCountMap(messages, currentUserId) ==>
      UnreadCountMap(messages, currentUserId)[sender] == UnreadFrom(messages, currentUserId, sender)
    decreases |messages|
  {
    if messages != [] {
      var init, m := messages[..|messages| - 1], messages[|messages| - 1];
      UnreadCountMapSpec(init, currentUserId, sender);
      assert messages == init + [m];
      UnreadFromSnoc(init, m, currentUserId, sender);
    }
  }

  /**
   * `getUnreadMessageCounts(currentUserId)`: for every sender with unread
   * messages to the user, how many; senders with none are absent.
   */
  method UnreadCounts(messages: seq<ChatMessage>, currentUserId: string) returns (counts: map<string, nat>)
    ensures forall s :: s in counts <==> UnreadFrom(messages, currentUserId, s) > 0
    ensures forall s :: s in counts ==> counts[s] == UnreadFrom(messages, currentUserId, s)
  {
    counts := map[];
    for i := 0 to |messages|
      invariant counts == UnreadCountMap(messages[..i], currentUserId)
    {
      var m := messages[i];
      assert messages[..i + 1][..i] == messages[..i];
      if m.toUserId == currentUserId && !m.read {
        var before := if m.fromUserId in counts then counts[m.fromUserId] else 0;
        counts := counts[m.fromUserId := before + 1];
      }
    }
    assert messages[..|messages|] == messages;
    forall s
      ensures s in counts <==> UnreadFrom(messages, currentUserId, s) > 0
      ensures s in counts ==> counts[s] == UnreadFrom(messages, currentUserId, s)
    {
      UnreadCountMapSpec(messages, currentUserId, s);
    }
  }
}
