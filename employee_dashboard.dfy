/**
 * The employee's dashboard: the slices of each collection that belong to
 * the signed-in employee, the two things an employee can send (a message
 * to the administrator and a pay request), and the figures on the page.
 */
module EmployeeDashboard {
  import opened Wrappers
  import opened Strings
  import opened Seqs
  import opened EmsTypes
  import opened LocalStore
  import opened AdminDashboard

  // ---------------------------------------------------------------------
  // what the employee sees (the load functions)
  // ---------------------------------------------------------------------

  function InvolvesUser(uid: string): Message -> bool { (m: Message) => m.senderId == uid || m.receiverId == uid }
  function NotificationFor(uid: string): Notification -> bool { (n: Notification) => n.userId == uid }
  function RequestBy(uid: string): PayRequest -> bool { (r: PayRequest) => r.employeeId == uid }
  function RecordOf(uid: string): MonthlyRecord -> bool { (r: MonthlyRecord) => r.employeeId == uid }
  function TimestampOf(m: Message): int { m.timestamp }

  /**
   * `loadMessages`: the conversation of the user, oldest first. It holds
   * exactly the stored messages the user sent or received, each as often
   * as it is stored.
   */
  function LoadMessages(ms: seq<Message>, uid: string): (r: seq<Message>)
    ensures SortedBy(r, TimestampOf)
    ensures forall m :: m in r <==> m in ms && (m.senderId == uid || m.receiverId == uid)
    ensures multiset(r) == multiset(Filter(ms, InvolvesUser(uid)))
  {
    var f := Filter(ms, InvolvesUser(uid));
    var r := SortBy(f, TimestampOf);
    assert forall m :: m in r <==> m in f by {
      forall m ensures m in r <==> m in f {
        assert m in r <==> m in multiset(r);
        assert m in f <==> m in multiset(f);
      }
    }
    r
  }

  /** Messages with the same timestamp keep the order in which they were stored. */
  lemma LoadMessagesStable(ms: seq<Message>, uid: string, t: int)
    ensures WithKey(LoadMessages(ms, uid), TimestampOf, t) == WithKey(Filter(ms, InvolvesUser(uid)), TimestampOf, t)
  {
    SortByStable(Filter(ms, InvolvesUser(uid)), TimestampOf, t);
  }

  /** `loadNotifications`: the user's notifications, in stored order (newest first). */
  function LoadNotifications(ns: seq<Notification>, uid: string): (r: seq<Notification>)
    ensures forall n :: n in r <==> n in ns && n.userId == uid
  {
    Filter(ns, NotificationFor(uid))
  }

  /** `loadPayRequests`: the requests the user submitted. */
  function LoadPayRequests(rs: seq<PayRequest>, uid: string): (r: seq<PayRequest>)
    ensures forall q :: q in r <==> q in rs && q.employeeId == uid
  {
    Filter(rs, RequestBy(uid))
  }

  /** `loadMonthlyRecords`: the user's salary records. */
  function LoadMonthlyRecords(rs: seq<MonthlyRecord>, uid: string): (r: seq<MonthlyRecord>)
    ensures forall x :: x in r <==> x in rs && x.employeeId == uid
  {
    Filter(rs, RecordOf(uid))
  }

  // ---------------------------------------------------------------------
  // figures on the page
  // ---------------------------------------------------------------------

  function UnreadIncoming(uid: string): Message -> bool { (m: Message) => !m.isRead && m.senderId != uid }

  /** Unread messages in the conversation that the user did not send: none exactly when all of those are read. */
  function UnreadMessageCount(view: seq<Message>, uid: string): (n: nat)
    ensures n <= |view|
    ensures n == 0 <==> forall i :: 0 <= i < |view| && view[i].senderId != uid ==> view[i].isRead
  {
    CountBounds(view, UnreadIncoming(uid));
    Count(view, UnreadIncoming(uid))
  }

  /** Unread notifications: none exactly when every notification shown has been read. */
  function UnreadNotificationCount(view: seq<Notification>): (n: nat)
    ensures n <= |view|
    ensures n == 0 <==> forall i :: 0 <= i < |view| ==> view[i].isRead
  {
    CountBounds(view, IsUnread);
    Count(view, IsUnread)
  }

  /** Requests still pending: none exactly when every request shown has been decided. */
  function PendingRequestCount(view: seq<PayRequest>): (n: nat)
    ensures n <= |view|
    ensures n == 0 <==> forall i :: 0 <= i < |view| ==> view[i].status != RequestPending
  {
    CountBounds(view, RequestIsPending);
    Count(view, RequestIsPending)
  }

  /** The sum of the net salaries of the user's records, paid or not: never negative over consistent records. */
  function TotalEarnings(view: seq<MonthlyRecord>): (total: real)
    ensures (forall i :: 0 <= i < |view| ==> RecordConsistent(view[i])) ==> total >= 0.0
  {
    NetSumNonNegative(view);
    Sum(view, NetOf)
  }

  /** A message the user sends never shows up among the user's unread messages. */
  lemma OwnMessageNotUnread(ms: seq<Message>, m: Message, uid: string)
    requires m.senderId == uid
    ensures UnreadMessageCount(LoadMessages(ms + [m], uid), uid) == UnreadMessageCount(LoadMessages(ms, uid), uid)
  {
    var p := InvolvesUser(uid);
    FilterAppend(ms, [m], p);
    assert [m][1..] == [];
    assert Filter([m], p) == [m];
    CountPermutation(LoadMessages(ms + [m], uid), Filter(ms, p) + [m], UnreadIncoming(uid));
    CountPermutation(LoadMessages(ms, uid), Filter(ms, p), UnreadIncoming(uid));
    CountAppend(Filter(ms, p), [m], UnreadIncoming(uid));
  }

  /** Over consistent records the earnings are never negative. */
  lemma TotalEarningsNonNegative(rs: seq<MonthlyRecord>, uid: string)
    requires forall i :: 0 <= i < |rs| ==> RecordConsistent(rs[i])
    ensures TotalEarnings(LoadMonthlyRecords(rs, uid)) >= 0.0
  {
    var view := LoadMonthlyRecords(rs, uid);
    forall i | 0 <= i < |view| ensures RecordConsistent(view[i]) {
      assert view[i] in rs;
    }
  }

  // ---------------------------------------------------------------------
  // sending
  // ---------------------------------------------------------------------

  /**
   * The employee's `handleSendMessage`: nothing happens for text that is
   * only white space or when nobody is signed in. Otherwise the trimmed
   * text goes to the administrator as an unread message, and the
   * administrator is notified.
   */
  method SendMessage(store: Store, text: string, messageId: string, notificationId: string, now: int)
    modifies store`messages, store`notifications
    ensures store.Valid() == old(store.Valid())
    ensures Blank(text) || store.currentUser.None? ==>
      store.messages == old(store.messages) && store.notifications == old(store.notifications)
    ensures !Blank(text) && store.currentUser.Some? ==>
      var u := store.currentUser.value;
      store.messages == old(store.messages) + [Message(messageId, u.id, u.name, "admin", Trim(text), now, false, EmployeeParty)] &&
      store.notifications ==
        [Notification(notificationId, "admin", "New Message", u.name + " sent you a message", Info, false, now)]
        + old(store.notifications)
  {
    TrimEmptyIffBlank(text);
    if Trim(text) == [] || store.currentUser.None? {
      return;
    }
    var u := store.currentUser.value;
    store.messages := store.messages + [Message(messageId, u.id, u.name, "admin", Trim(text), now, false, EmployeeParty)];
    store.AddNotification(notificationId, "admin", "New Message", u.name + " sent you a message", now, Info);
  }

  /** The pay-request form: the amount is the text typed in. */
  datatype RequestForm = RequestForm(amount: string, purpose: string, description: string, requestType: RequestType)

  /** The stored request: `parseInt` of the amount, pending, not yet processed. */
  function NewRequest(u: User, f: RequestForm, id: string, now: int): (r: PayRequest)
    ensures r.employeeId == u.id && r.employeeName == u.name && r.status == RequestPending
    ensures r.amount == ParseInt(f.amount) && r.purpose == f.purpose && r.description == Some(f.description)
    ensures r.requestType == f.requestType && r.createdAt == now && r.id == id
    ensures r.processedAt.None? && r.processedBy.None? && r.adminNotes.None?
  {
    PayRequest(id, u.id, u.name, ParseInt(f.amount), f.purpose, Some(f.description), f.requestType,
               RequestPending, now, None, None, None)
  }

  /** The administrator's notice quotes the amount as typed, not as parsed. */
  function RequestNoticeText(u: User, f: RequestForm): string {
    u.name + " submitted a " + RequestTypeText(f.requestType) + " request for \U{20B9}" + f.amount
  }

  /**
   * `handleSubmitPayRequest`: nothing happens when nobody is signed in or
   * the amount or purpose is empty; otherwise exactly one pending request
   * of the user is appended and the administrator is notified.
   */
  method SubmitPayRequest(store: Store, f: RequestForm, requestId: string, notificationId: string, now: int)
    returns (submitted: bool)
    modifies store`payRequests, store`notifications
    ensures store.Valid() == old(store.Valid())
    ensures submitted <==> store.currentUser.Some? && f.amount != "" && f.purpose != ""
    ensures !submitted ==> store.payRequests == old(store.payRequests) && store.notifications == old(store.notifications)
    ensures submitted ==>
      var u := store.currentUser.value;
      store.payRequests == old(store.payRequests) + [NewRequest(u, f, requestId, now)] &&
      store.notifications ==
        [Notification(notificationId, "admin", "New Payment Request", RequestNoticeText(u, f), Info, false, now)]
        + old(store.notifications)
  {
    if store.currentUser.None? || f.amount == "" || f.purpose == "" {
      return false;
    }
    var u := store.currentUser.value;
    store.payRequests := store.payRequests + [NewRequest(u, f, requestId, now)];
    store.AddNotification(notificationId, "admin", "New Payment Request", RequestNoticeText(u, f), now, Info);
    submitted := true;
  }

  /** A submitted request adds one to the user's pending requests. */
  lemma SubmittedRequestIsPending(rs: seq<PayRequest>, u: User, f: RequestForm, id: string, now: int)
    ensures PendingRequestCount(LoadPayRequests(rs + [NewRequest(u, f, id, now)], u.id))
         == PendingRequestCount(LoadPayRequests(rs, u.id)) + 1
  {
    var q := NewRequest(u, f, id, now);
    var mine := RequestBy(u.id);
    FilterAppend(rs, [q], mine);
    assert [q][1..] == [];
    assert Filter([q], mine) == [q];
    assert Count([q], RequestIsPending) == 1;
    assert LoadPayRequests(rs + [q], u.id) == LoadPayRequests(rs, u.id) + [q];
    CountAppend(LoadPayRequests(rs, u.id), [q], RequestIsPending);
  }

  /** A typed amount that is a whole number is stored as that number. */
  lemma AmountRoundTrip(u: User, f: RequestForm, id: string, now: int, n: int)
    requires f.amount == IntToString(n)
    ensures NewRequest(u, f, id, now).amount == Some(n)
  {
    ParseIntToString(n);
  }
}
