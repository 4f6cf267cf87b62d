/**
 * The administrator's dashboard: the employee lists it shows, the handlers
 * that approve accounts, settle pay requests, edit profiles, send messages,
 * add monthly salary records and move their payment status, and the summary
 * figures at the top of the page.
 *
 * Each handler reads a whole collection from the store, rebuilds or extends
 * it and writes it back; it is modelled as a method over the `Store` whose
 * contract ties each written collection to a function of the old one. The
 * properties of those functions are proved as lemmas beside them.
 */
module AdminDashboard {
  import opened Wrappers
  import opened Strings
  import opened Seqs
  import opened EmsTypes
  import opened Payroll
  import opened LocalStore
  import Auth

  // ---------------------------------------------------------------------
  // selectors (each named once, so that every use is the same function)
  // ---------------------------------------------------------------------

  predicate IsPending(e: Employee) { !e.isApproved }
  predicate IsApproved(e: Employee) { e.isApproved }
  predicate ForAdmin(n: Notification) { n.userId == "admin" }
  predicate IsUnread(n: Notification) { !n.isRead }
  predicate RequestIsPending(r: PayRequest) { r.status == RequestPending }
  predicate UnreadFromEmployee(m: Message) { !m.isRead && m.senderType == EmployeeParty }
  predicate IsPaid(r: MonthlyRecord) { r.paymentStatus == Paid }
  function NetOf(r: MonthlyRecord): real { r.netSalary }

  function EmployeeIdIs(id: string): Employee -> bool { (e: Employee) => e.id == id }
  function RequestIdIs(id: string): PayRequest -> bool { (r: PayRequest) => r.id == id }
  function NotificationIdIs(id: string): Notification -> bool { (n: Notification) => n.id == id }
  function RecordIdIs(id: string): MonthlyRecord -> bool { (r: MonthlyRecord) => r.id == id }

  // ---------------------------------------------------------------------
  // employee lists (loadData)
  // ---------------------------------------------------------------------

  /** The accounts waiting for a decision. */
  function PendingEmployees(es: seq<Employee>): (r: seq<Employee>)
    ensures forall e :: e in r <==> e in es && !e.isApproved
  {
    Filter(es, IsPending)
  }

  /** The approved accounts: the only ones salary records and message notices go to. */
  function ApprovedEmployees(es: seq<Employee>): (r: seq<Employee>)
    ensures forall e :: e in r <==> e in es && e.isApproved
  {
    Filter(es, IsApproved)
  }

  /**
   * The first approved account with the id: the employee a record may be
   * added for, and the recipient a message notice goes to.
   */
  function FindApproved(es: seq<Employee>, id: string): (r: Option<Employee>)
    ensures r.Some? <==> exists e :: e in es && e.isApproved && e.id == id
    ensures r.Some? ==> r.value in es && r.value.isApproved && r.value.id == id
  {
    var approved := ApprovedEmployees(es);
    var r := Find(approved, EmployeeIdIs(id));
    assert r.None? ==> forall e :: e in approved ==> e.id != id by {
      if r.None? {
        forall e | e in approved ensures e.id != id {
          var i :| 0 <= i < |approved| && approved[i] == e;
        }
      }
    }
    r
  }

  /** Every stored employee is on exactly one of the two lists. */
  lemma ApprovalPartition(es: seq<Employee>)
    ensures |PendingEmployees(es)| + |ApprovedEmployees(es)| == |es|
    ensures multiset(PendingEmployees(es)) + multiset(ApprovedEmployees(es)) == multiset(es)
  {
    FilterPartition(es, IsPending, IsApproved);
  }

  /** The notifications addressed to the administrator. */
  function AdminNotifications(ns: seq<Notification>): (r: seq<Notification>)
    ensures forall n :: n in r <==> n in ns && n.userId == "admin"
  {
    Filter(ns, ForAdmin)
  }

  // ---------------------------------------------------------------------
  // approving or rejecting an account
  // ---------------------------------------------------------------------

  /**
   * The employee list after a decision on `id`: that account gets the
   * decision and a fresh balance of 24 leave days, whether it was approved
   * or rejected; every other account is unchanged.
   */
  function ApproveInList(es: seq<Employee>, id: string, approve: bool): (r: seq<Employee>)
    ensures |r| == |es|
    ensures forall i :: 0 <= i < |es| && es[i].id == id ==>
      r[i] == es[i].(isApproved := approve, leaveBalance := Some(24))
    ensures forall i :: 0 <= i < |es| && es[i].id != id ==> r[i] == es[i]
  {
    UpdateWhere(es, EmployeeIdIs(id), (e: Employee) => e.(isApproved := approve, leaveBalance := Some(24)))
  }

  /** After an approval no account with that id is still pending. */
  lemma ApprovalLeavesPending(es: seq<Employee>, id: string)
    ensures forall e :: e in PendingEmployees(ApproveInList(es, id, true)) ==> e.id != id
  {
    var r := ApproveInList(es, id, true);
    forall e | e in PendingEmployees(r) ensures e.id != id {
      var i :| 0 <= i < |r| && r[i] == e;
    }
  }

  /**
   * Approving the only account with an e-mail address lets its owner sign
   * in with the stored password.
   */
  lemma ApprovalEnablesLogin(es: seq<Employee>, k: nat)
    requires k < |es|
    requires forall i :: 0 <= i < |es| && i != k ==> es[i].email != es[k].email && es[i].id != es[k].id
    ensures Auth.Login(ApproveInList(es, es[k].id, true), es[k].email, es[k].password, EmployeeParty)
            == Some(Auth.EmployeeUser(es[k]))
  {
    var r := ApproveInList(es, es[k].id, true);
    assert r[k] == es[k].(isApproved := true, leaveBalance := Some(24));
    Auth.ApprovedCanSignIn(r, k);
  }

  function ApprovalTitle(approve: bool): string {
    if approve then "Account Approved" else "Account Rejected"
  }

  function ApprovalText(approve: bool): string {
    if approve then "Your account has been approved. You can now log in and access your dashboard."
    else "Unfortunately, your account application was not approved."
  }

  /**
   * `handleApproveEmployee`: records the decision on every account with the
   * id and, when such an account exists, tells its owner: a success notice
   * on approval, an error notice on rejection. The pay records are not
   * touched, so the store is consistent afterwards exactly when it was before.
   */
  method ApproveEmployee(store: Store, employeeId: string, approve: bool, notificationId: string, now: int)
    modifies store`employees, store`notifications
    ensures store.Valid() == old(store.Valid())
    ensures store.employees == ApproveInList(old(store.employees), employeeId, approve)
    ensures store.notifications ==
      (if exists i :: 0 <= i < |old(store.employees)| && old(store.employees)[i].id == employeeId
       then [Notification(notificationId, employeeId, ApprovalTitle(approve), ApprovalText(approve),
                          if approve then Success else Error, false, now)]
       else []) + old(store.notifications)
  {
    var employees := store.employees;
    store.employees := ApproveInList(employees, employeeId, approve);
    var employee := Find(employees, EmployeeIdIs(employeeId));
    if employee.Some? {
      store.AddNotification(notificationId, employeeId, ApprovalTitle(approve), ApprovalText(approve), now,
                            if approve then Success else Error);
    }
  }

  // ---------------------------------------------------------------------
  // settling a pay request
  // ---------------------------------------------------------------------

  /** The request as the decision leaves it; its earlier status is not consulted. */
  function Settled(r: PayRequest, approve: bool, notes: Option<string>, now: int): PayRequest {
    r.(status := if approve then Approved else Rejected,
       processedAt := Some(now),
       processedBy := Some("admin"),
       adminNotes := Some(StrOr(notes, "")))
  }

  /** The request list after a decision on `id`: only the requests with that id change. */
  function SettleInList(rs: seq<PayRequest>, id: string, approve: bool, notes: Option<string>, now: int)
    : (r: seq<PayRequest>)
    ensures |r| == |rs|
    ensures forall i :: 0 <= i < |rs| && rs[i].id == id ==>
      r[i].status == (if approve then Approved else Rejected) &&
      r[i].processedBy == Some("admin") && r[i].processedAt == Some(now) &&
      r[i].adminNotes == Some(if notes.Some? && notes.value != "" then notes.value else "") &&
      r[i] == rs[i].(status := r[i].status, processedAt := r[i].processedAt,
                     processedBy := r[i].processedBy, adminNotes := r[i].adminNotes)
    ensures forall i :: 0 <= i < |rs| && rs[i].id != id ==> r[i] == rs[i]
  {
    UpdateWhere(rs, RequestIdIs(id), (q: PayRequest) => Settled(q, approve, notes, now))
  }

  /** Settling never adds to the pending requests, and settles every request with the id. */
  lemma SettlingReducesPending(rs: seq<PayRequest>, id: string, approve: bool, notes: Option<string>, now: int)
    ensures PendingPayments(SettleInList(rs, id, approve, notes, now)) <= PendingPayments(rs)
    ensures (exists i :: 0 <= i < |rs| && rs[i].id == id && rs[i].status == RequestPending) ==>
      PendingPayments(SettleInList(rs, id, approve, notes, now)) < PendingPayments(rs)
  {
    CountUpdateWhere(rs, RequestIdIs(id), (q: PayRequest) => Settled(q, approve, notes, now), RequestIsPending);
  }

  /** `₹${request.amount}`: NaN was stored as JSON `null` and reads back as null. */
  function AmountText(a: Option<int>): string {
    match a
    case None => "null"
    case Some(n) => IntToString(n)
  }

  function SettlementTitle(approve: bool): string {
    if approve then "Payment Request Approved" else "Payment Request Rejected"
  }

  /** The notice text; a rejection quotes the notes when there are any. */
  function SettlementText(r: PayRequest, approve: bool, notes: Option<string>): string {
    var head := "Your " + RequestTypeText(r.requestType) + " request of \U{20B9}" + AmountText(r.amount);
    if approve then head + " has been approved."
    else head + " has been rejected. " + (if notes.Some? && notes.value != "" then "Reason: " + notes.value else "")
  }

  /**
   * `handlePayRequest`: records the decision on every request with the id
   * and, when one exists, notifies the employee of the first of them.
   */
  method HandlePayRequest(store: Store, requestId: string, approve: bool, adminNotes: Option<string>,
                          notificationId: string, now: int)
    modifies store`payRequests, store`notifications
    ensures store.Valid() == old(store.Valid())
    ensures store.payRequests == SettleInList(old(store.payRequests), requestId, approve, adminNotes, now)
    ensures var found := Find(old(store.payRequests), RequestIdIs(requestId));
      store.notifications ==
        (if found.Some?
         then [Notification(notificationId, found.value.employeeId, SettlementTitle(approve),
                            SettlementText(found.value, approve, adminNotes),
                            if approve then Success else Error, false, now)]
         else []) + old(store.notifications)
  {
    var requests := store.payRequests;
    store.payRequests := SettleInList(requests, requestId, approve, adminNotes, now);
    var request := Find(requests, RequestIdIs(requestId));
    if request.Some? {
      store.AddNotification(notificationId, request.value.employeeId, SettlementTitle(approve),
                            SettlementText(request.value, approve, adminNotes), now,
                            if approve then Success else Error);
    }
  }

  // ---------------------------------------------------------------------
  // editing a profile
  // ---------------------------------------------------------------------

  /** The list with every account whose id is `e.id` replaced by `e`. */
  function ReplaceEmployee(es: seq<Employee>, e: Employee): (r: seq<Employee>)
    ensures |r| == |es|
    ensures forall i :: 0 <= i < |es| ==> r[i] == if es[i].id == e.id then e else es[i]
  {
    UpdateWhere(es, EmployeeIdIs(e.id), (x: Employee) => e)
  }

  /** Saving the same profile twice is saving it once. */
  lemma ReplaceEmployeeIdempotent(es: seq<Employee>, e: Employee)
    ensures ReplaceEmployee(ReplaceEmployee(es, e), e) == ReplaceEmployee(es, e)
  {
  }

  /**
   * `handleUpdateEmployee`: stores the edited profile and notifies its
   * owner, whether or not an account with that id was found.
   */
  method UpdateEmployee(store: Store, employee: Employee, notificationId: string, now: int)
    modifies store`employees, store`notifications
    ensures store.Valid() == old(store.Valid())
    ensures store.employees == ReplaceEmployee(old(store.employees), employee)
    ensures store.notifications ==
      [Notification(notificationId, employee.id, "Profile Updated",
                    "Your profile information has been updated by admin.", Info, false, now)]
      + old(store.notifications)
  {
    store.employees := ReplaceEmployee(store.employees, employee);
    store.AddNotification(notificationId, employee.id, "Profile Updated",
                          "Your profile information has been updated by admin.", now, Info);
  }

  // ---------------------------------------------------------------------
  // sending a message
  // ---------------------------------------------------------------------

  /**
   * The administrator's `handleSendMessage`: nothing happens for text that
   * is only white space or without a recipient. Otherwise the trimmed text
   * is appended as an unread message from the administrator, and the
   * recipient is notified when it is an approved employee.
   */
  method SendMessage(store: Store, text: string, recipient: string, messageId: string,
                     notificationId: string, now: int)
    modifies store`messages, store`notifications
    ensures store.Valid() == old(store.Valid())
    ensures Blank(text) || recipient == "" ==>
      store.messages == old(store.messages) && store.notifications == old(store.notifications)
    ensures !Blank(text) && recipient != "" ==>
      store.messages == old(store.messages) +
        [Message(messageId, "admin", "Administrator", recipient, Trim(text), now, false, AdminParty)]
    ensures !Blank(text) && recipient != "" ==>
      store.notifications ==
        (if FindApproved(old(store.employees), recipient).Some?
         then [Notification(notificationId, recipient, "New Message", "Administrator sent you a message",
                            Info, false, now)]
         else []) + old(store.notifications)
  {
    TrimEmptyIffBlank(text);
    if Trim(text) == [] || recipient == "" {
      return;
    }
    var message := Message(messageId, "admin", "Administrator", recipient, Trim(text), now, false, AdminParty);
    store.messages := store.messages + [message];
    var employee := FindApproved(store.employees, recipient);
    if employee.Some? {
      store.AddNotification(notificationId, recipient, "New Message", "Administrator sent you a message", now, Info);
    }
  }

  // ---------------------------------------------------------------------
  // adding a monthly record
  // ---------------------------------------------------------------------

  /**
   * The "add monthly record" form. Numeric inputs go through
   * `parseInt(...) || 0`; the year through a bare `parseInt`, so it may be
   * NaN (`None`).
   */
  datatype MonthForm = MonthForm(
    month: string,
    year: Option<int>,
    basicSalary: Option<real>,
    totalWorkingDays: Option<int>,
    presentDays: Option<int>,
    halfDays: Option<int>,
    leaveDays: Option<int>,
    overtimeHours: Option<int>,
    bonuses: Option<real>,
    deductions: Option<real>,
    paymentStatus: Option<PaymentStatus>)

  /** Working days as the record counts them: missing or 0 means 22. */
  function RecordWorkingDays(f: MonthForm): (d: int)
    ensures d != 0
    ensures f.totalWorkingDays.Some? && f.totalWorkingDays.value != 0 ==> d == f.totalWorkingDays.value
    ensures f.totalWorkingDays.None? || f.totalWorkingDays.value == 0 ==> d == 22
  {
    IntOr(f.totalWorkingDays, 22)
  }

  /** What the calculator is given: the form with its working days already defaulted. */
  function CalculatorInput(f: MonthForm): SalaryInput {
    SalaryInput(f.basicSalary, Some(RecordWorkingDays(f)), f.presentDays, f.halfDays,
                f.overtimeHours, f.bonuses, f.deductions)
  }

  /**
   * The record built from the form. Absent days are the working days less
   * the present, half and leave days, without a floor; the net salary is
   * the calculator's result and the gross salary is that plus the
   * deductions.
   */
  function BuildRecord(f: MonthForm, employee: Employee, id: string, now: int,
                       currentMonth: string, currentYear: int): (r: MonthlyRecord)
    ensures r.id == id && r.employeeId == employee.id && r.employeeName == employee.fullName
    ensures r.month == (if f.month != "" then f.month else currentMonth)
    ensures r.year == (if f.year.Some? && f.year.value != 0 then f.year.value else currentYear)
    ensures r.totalWorkingDays == RecordWorkingDays(f)
    ensures r.absentDays == r.totalWorkingDays - r.presentDays - r.halfDays - r.leaveDays
    ensures r.netSalary == CalculateNetSalary(CalculatorInput(f))
    ensures r.deductions == DeductionsOf(CalculatorInput(f))
    ensures RecordConsistent(r)
    ensures r.paymentStatus == f.paymentStatus.GetOr(Pending)
    ensures r.createdAt == now && r.updatedAt == now
  {
    var input := CalculatorInput(f);
    var total := RecordWorkingDays(f);
    var present := IntOr(f.presentDays, 0);
    var half := IntOr(f.halfDays, 0);
    var leave := IntOr(f.leaveDays, 0);
    var net := CalculateNetSalary(input);
    MonthlyRecord(id, employee.id, employee.fullName, StrOr(Some(f.month), currentMonth),
      IntOr(f.year, currentYear), NumOr(f.basicSalary, 0.0), total, present,
      total - present - half - leave, half, leave, IntOr(f.overtimeHours, 0),
      NumOr(f.bonuses, 0.0), NumOr(f.deductions, 0.0), net + NumOr(f.deductions, 0.0), net,
      f.paymentStatus.GetOr(Pending), now, now)
  }

  /**
   * The two defaults for a missing working-day count disagree: the record
   * divides by 22, the bare calculator by 1.
   */
  lemma WorkingDayDefaultsDisagree()
    ensures var f := MonthForm("March", Some(2024), Some(22000.0), None, Some(22), None, None, None, None, None, None);
      CalculateNetSalary(CalculatorInput(f)) == 22000.0 &&
      CalculateNetSalary(SalaryInput(Some(22000.0), None, Some(22), None, None, None, None)) == 484000.0
  {
    var f := MonthForm("March", Some(2024), Some(22000.0), None, Some(22), None, None, None, None, None, None);
    assert DailyRate(CalculatorInput(f)) == 1000.0;
    assert DailyRate(SalaryInput(Some(22000.0), None, Some(22), None, None, None, None)) == 22000.0;
  }

  /** The leave balance after a month: a stored 0 or no balance reads as 24, and it never drops below 0. */
  function LeaveAfter(balance: Option<int>, leaveDays: int): (b: int)
    ensures b >= 0
    ensures b == if IntOr(balance, 24) - leaveDays > 0 then IntOr(balance, 24) - leaveDays else 0
  {
    var v := IntOr(balance, 24) - leaveDays;
    if v > 0 then v else 0
  }

  /**
   * The form sets no minimum on the leave count, and a negative one raises
   * the balance: 24 less -5 leave days is 29.
   */
  lemma NegativeLeaveRaisesBalance(balance: Option<int>, leaveDays: int)
    requires leaveDays < 0 && IntOr(balance, 24) > 0
    ensures LeaveAfter(balance, leaveDays) == IntOr(balance, 24) - leaveDays > IntOr(balance, 24)
    ensures LeaveAfter(None, -5) == 29
  {
  }

  /** An exhausted balance of 0 is treated as the full 24 days. */
  lemma ZeroBalanceReadsAsFull(leaveDays: int)
    ensures LeaveAfter(Some(0), leaveDays) == LeaveAfter(None, leaveDays)
    ensures leaveDays <= 24 ==> LeaveAfter(Some(0), leaveDays) == 24 - leaveDays
  {
  }

  /** The employee list with the month's leave taken from every account with the id. */
  function DeductLeave(es: seq<Employee>, id: string, leaveDays: int): (r: seq<Employee>)
    ensures |r| == |es|
    ensures forall i :: 0 <= i < |es| && es[i].id == id ==>
      r[i] == es[i].(leaveBalance := Some(LeaveAfter(es[i].leaveBalance, leaveDays)))
    ensures forall i :: 0 <= i < |es| && es[i].id != id ==> r[i] == es[i]
  {
    UpdateWhere(es, EmployeeIdIs(id), (e: Employee) => e.(leaveBalance := Some(LeaveAfter(e.leaveBalance, leaveDays))))
  }

  /** `${year}` of the raw form value: NaN prints as "NaN". */
  function YearText(y: Option<int>): string {
    match y
    case None => "NaN"
    case Some(n) => IntToString(n)
  }

  /**
   * The notice for a new record. It quotes the form's month and year as
   * typed (not their defaults); `netText` is the JavaScript rendering of
   * the net salary.
   */
  function RecordNoticeText(f: MonthForm, netText: string): string {
    "Your salary record for " + f.month + " " + YearText(f.year) + " has been added. Net salary: \U{20B9}" + netText
  }

  /**
   * `handleAddMonthlyRecord`. Without a selected employee, with a missing or
   * zero basic salary, or when the selection is not an approved employee,
   * nothing changes. Otherwise exactly one record is appended, the
   * employee's leave balance is reduced and the employee is notified.
   */
  method AddMonthlyRecord(store: Store, selected: string, f: MonthForm, recordId: string,
                          notificationId: string, now: int, currentMonth: string, currentYear: int,
                          netText: string) returns (added: bool)
    requires store.Valid()
    modifies store`monthlyRecords, store`employees, store`notifications
    ensures store.Valid()
    ensures added <==> selected != "" && NumOr(f.basicSalary, 0.0) != 0.0 &&
                       FindApproved(old(store.employees), selected).Some?
    ensures !added ==>
      store.monthlyRecords == old(store.monthlyRecords) &&
      store.employees == old(store.employees) && store.notifications == old(store.notifications)
    ensures added ==>
      store.monthlyRecords == old(store.monthlyRecords) +
        [BuildRecord(f, FindApproved(old(store.employees), selected).value, recordId, now, currentMonth, currentYear)]
    ensures added ==> store.employees == DeductLeave(old(store.employees), selected, IntOr(f.leaveDays, 0))
    ensures added ==>
      store.notifications ==
        [Notification(notificationId, selected, "Monthly Record Added", RecordNoticeText(f, netText), Info, false, now)]
        + old(store.notifications)
  {
    if selected == "" || NumOr(f.basicSalary, 0.0) == 0.0 {
      return false;
    }
    var employee := FindApproved(store.employees, selected);
    if employee.None? {
      return false;
    }
    var record := BuildRecord(f, employee.value, recordId, now, currentMonth, currentYear);
    store.monthlyRecords := store.monthlyRecords + [record];
    store.employees := DeductLeave(store.employees, selected, IntOr(f.leaveDays, 0));
    store.AddNotification(notificationId, selected, "Monthly Record Added", RecordNoticeText(f, netText), now, Info);
    added := true;
  }

  // ---------------------------------------------------------------------
  // notifications and payment status
  // ---------------------------------------------------------------------

  /** The notification list with the one being opened marked read. */
  function MarkRead(ns: seq<Notification>, id: string): (r: seq<Notification>)
    ensures |r| == |ns|
    ensures forall i :: 0 <= i < |ns| && ns[i].id == id ==> r[i] == ns[i].(isRead := true)
    ensures forall i :: 0 <= i < |ns| && ns[i].id != id ==> r[i] == ns[i]
  {
    UpdateWhere(ns, NotificationIdIs(id), (n: Notification) => n.(isRead := true))
  }

  /** Marking a notification read twice is marking it once. */
  lemma MarkReadIdempotent(ns: seq<Notification>, id: string)
    ensures MarkRead(MarkRead(ns, id), id) == MarkRead(ns, id)
  {
  }

  /** Marking a notification read never adds to the unread ones, and removes one when it was unread. */
  lemma MarkReadReducesUnread(ns: seq<Notification>, id: string)
    ensures Count(MarkRead(ns, id), IsUnread) <= Count(ns, IsUnread)
    ensures (exists i :: 0 <= i < |ns| && ns[i].id == id && !ns[i].isRead) ==>
      Count(MarkRead(ns, id), IsUnread) < Count(ns, IsUnread)
  {
    CountUpdateWhere(ns, NotificationIdIs(id), (n: Notification) => n.(isRead := true), IsUnread);
  }

  /** `markNotificationAsRead`, on either dashboard. */
  method MarkNotificationAsRead(store: Store, notificationId: string)
    modifies store`notifications
    ensures store.Valid() == old(store.Valid())
    ensures store.notifications == MarkRead(old(store.notifications), notificationId)
  {
    store.notifications := MarkRead(store.notifications, notificationId);
  }

  /** The record list with a new status on every record with the id, whatever its status was. */
  function SetPaymentStatus(rs: seq<MonthlyRecord>, id: string, status: PaymentStatus, now: int)
    : (r: seq<MonthlyRecord>)
    ensures |r| == |rs|
    ensures forall i :: 0 <= i < |rs| && rs[i].id == id ==>
      r[i] == rs[i].(paymentStatus := status, updatedAt := now)
    ensures forall i :: 0 <= i < |rs| && rs[i].id != id ==> r[i] == rs[i]
  {
    UpdateWhere(rs, RecordIdIs(id), (x: MonthlyRecord) => x.(paymentStatus := status, updatedAt := now))
  }

  /** There is no guard: a paid record can be put back to pending. */
  lemma NoTransitionGuard(r: MonthlyRecord, now: int)
    requires r.paymentStatus == Paid
    ensures SetPaymentStatus([r], r.id, Pending, now)[0].paymentStatus == Pending
  {
  }

  /** The step the dashboard's buttons offer from each status. */
  function UiNextStatus(s: PaymentStatus): (r: Option<PaymentStatus>)
    ensures r.Some? ==> StatusRank(r.value) == StatusRank(s) + 1
    ensures r.None? <==> s == Paid
  {
    match s
    case Pending => Some(Processing)
    case Processing => Some(Paid)
    case Paid => None
  }

  /** pending, processing, paid, in order. */
  function StatusRank(s: PaymentStatus): nat {
    match s
    case Pending => 0
    case Processing => 1
    case Paid => 2
  }

  /** Following the buttons from pending reaches paid in exactly two steps. */
  lemma UiPathToPaid()
    ensures UiNextStatus(Pending) == Some(Processing) && UiNextStatus(Processing) == Some(Paid)
  {
  }

  function StatusTitle(): string { "Payment Status Updated" }

  function StatusText(r: MonthlyRecord, status: PaymentStatus): string {
    "Your salary payment for " + r.month + " " + IntToString(r.year) + " is now " + PaymentStatusText(status) + "."
  }

  /**
   * `updatePaymentStatus`: sets the status of every record with the id and,
   * when one exists, notifies the owner of the first of them: a success
   * notice for `paid`, an information notice otherwise.
   */
  method UpdatePaymentStatus(store: Store, recordId: string, status: PaymentStatus,
                             notificationId: string, now: int)
    requires store.Valid()
    modifies store`monthlyRecords, store`notifications
    ensures store.Valid()
    ensures store.monthlyRecords == SetPaymentStatus(old(store.monthlyRecords), recordId, status, now)
    ensures var found := Find(old(store.monthlyRecords), RecordIdIs(recordId));
      store.notifications ==
        (if found.Some?
         then [Notification(notificationId, found.value.employeeId, StatusTitle(),
                            StatusText(found.value, status), if status == Paid then Success else Info, false, now)]
         else []) + old(store.notifications)
  {
    var records := store.monthlyRecords;
    store.monthlyRecords := SetPaymentStatus(records, recordId, status, now);
    var record := Find(records, RecordIdIs(recordId));
    if record.Some? {
      store.AddNotification(notificationId, record.value.employeeId, StatusTitle(),
                            StatusText(record.value, status), now, if status == Paid then Success else Info);
    }
  }

  // ---------------------------------------------------------------------
  // summary figures
  // ---------------------------------------------------------------------

  /** Pay requests still awaiting a decision: none exactly when no request is pending. */
  function PendingPayments(rs: seq<PayRequest>): (n: nat)
    ensures n <= |rs|
    ensures n == 0 <==> forall i :: 0 <= i < |rs| ==> rs[i].status != RequestPending
    ensures n == |rs| <==> forall i :: 0 <= i < |rs| ==> rs[i].status == RequestPending
  {
    CountBounds(rs, RequestIsPending);
    Count(rs, RequestIsPending)
  }

  /** Unread messages sent by employees: none exactly when every employee's message has been read. */
  function UnreadMessages(ms: seq<Message>): (n: nat)
    ensures n <= |ms|
    ensures n == 0 <==> forall i :: 0 <= i < |ms| && ms[i].senderType == EmployeeParty ==> ms[i].isRead
  {
    CountBounds(ms, UnreadFromEmployee);
    Count(ms, UnreadFromEmployee)
  }

  /**
   * Unread notifications addressed to the administrator: none exactly when
   * every notification for the administrator has been read; notifications
   * for employees never count.
   */
  function UnreadNotifications(ns: seq<Notification>): (n: nat)
    ensures n <= |ns|
    ensures n == 0 <==> forall i :: 0 <= i < |ns| && ns[i].userId == "admin" ==> ns[i].isRead
  {
    var a := AdminNotifications(ns);
    CountBounds(a, IsUnread);
    assert forall i :: 0 <= i < |a| ==> a[i] in ns && a[i].userId == "admin";
    assert forall i :: 0 <= i < |ns| && ns[i].userId == "admin" ==> ns[i] in a;
    Count(a, IsUnread)
  }

  /** Over consistent records a sum of net salaries is never negative. */
  lemma NetSumNonNegative(rs: seq<MonthlyRecord>)
    ensures (forall i :: 0 <= i < |rs| ==> RecordConsistent(rs[i])) ==> Sum(rs, NetOf) >= 0.0
  {
    if forall i :: 0 <= i < |rs| ==> RecordConsistent(rs[i]) {
      SumNonNegative(rs, NetOf);
    }
  }

  lemma PaidSumFacts(rs: seq<MonthlyRecord>)
    ensures (forall i :: 0 <= i < |rs| ==> RecordConsistent(rs[i])) ==> Sum(Filter(rs, IsPaid), NetOf) >= 0.0
    ensures (forall i :: 0 <= i < |rs| ==> rs[i].paymentStatus != Paid) ==> Filter(rs, IsPaid) == []
  {
    var paid := Filter(rs, IsPaid);
    if forall i :: 0 <= i < |rs| ==> RecordConsistent(rs[i]) {
      forall i | 0 <= i < |paid| ensures RecordConsistent(paid[i]) {
        assert paid[i] in rs;
      }
      NetSumNonNegative(paid);
    }
    CountIsFilterLength(rs, IsPaid);
    CountBounds(rs, IsPaid);
  }

  /**
   * The sum of the net salaries of the paid records: never negative over
   * consistent records, and zero while nothing has been paid.
   */
  function TotalSalaryPaid(rs: seq<MonthlyRecord>): (total: real)
    ensures (forall i :: 0 <= i < |rs| ==> RecordConsistent(rs[i])) ==> total >= 0.0
    ensures (forall i :: 0 <= i < |rs| ==> rs[i].paymentStatus != Paid) ==> total == 0.0
  {
    PaidSumFacts(rs);
    Sum(Filter(rs, IsPaid), NetOf)
  }

  /** A new record adds its net salary to the total exactly when it is already paid. */
  lemma TotalSalaryPaidAppend(rs: seq<MonthlyRecord>, r: MonthlyRecord)
    ensures TotalSalaryPaid(rs + [r]) == TotalSalaryPaid(rs) + (if r.paymentStatus == Paid then r.netSalary else 0.0)
  {
    FilterAppend(rs, [r], IsPaid);
    SumAppend(Filter(rs, IsPaid), Filter([r], IsPaid), NetOf);
    assert [r][1..] == [];
  }

  /** Marking a pending or processing record paid raises the total by its net salary. */
  lemma {:induction false} PayingRaisesTotal(rs: seq<MonthlyRecord>, k: nat, now: int)
    requires k < |rs| && rs[k].paymentStatus != Paid
    requires forall i :: 0 <= i < |rs| && i != k ==> rs[i].id != rs[k].id
    ensures TotalSalaryPaid(SetPaymentStatus(rs, rs[k].id, Paid, now)) == TotalSalaryPaid(rs) + rs[k].netSalary
  {
    var r := SetPaymentStatus(rs, rs[k].id, Paid, now);
    var pre, post := rs[..k], rs[k + 1..];
    assert rs == pre + [rs[k]] + post;
    assert r == pre + [r[k]] + post;
    FilterAppend(pre + [rs[k]], post, IsPaid);
    FilterAppend(pre, [rs[k]], IsPaid);
    FilterAppend(pre + [r[k]], post, IsPaid);
    FilterAppend(pre, [r[k]], IsPaid);
    assert [rs[k]][1..] == [] && [r[k]][1..] == [];
    SumAppend(Filter(pre, IsPaid), Filter([rs[k]], IsPaid), NetOf);
    SumAppend(Filter(pre, IsPaid) + Filter([rs[k]], IsPaid), Filter(post, IsPaid), NetOf);
    SumAppend(Filter(pre, IsPaid), Filter([r[k]], IsPaid), NetOf);
    SumAppend(Filter(pre, IsPaid) + Filter([r[k]], IsPaid), Filter(post, IsPaid), NetOf);
  }
}
