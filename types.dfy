/**
 * The records of the browser-side employee management application: the
 * entities it keeps in local storage and the closed sets of tags they carry.
 * Each string-literal union of the source becomes a datatype with one
 * constructor per literal, so a value outside the union cannot be built.
 * Ids are opaque strings; ISO timestamps are modelled as integer
 * milliseconds since the epoch.
 */
module EmsTypes {
  import opened Wrappers

  /** `'pending' | 'paid' | 'processing'` of a monthly record. */
  datatype PaymentStatus = Pending | Paid | Processing

  /** `'pending' | 'approved' | 'rejected'` of a pay request. */
  datatype RequestStatus = RequestPending | Approved | Rejected

  /** `'salary' | 'advance' | 'bonus' | 'reimbursement' | 'other'`. */
  datatype RequestType = Salary | Advance | BonusRequest | Reimbursement | Other

  /** `'info' | 'success' | 'warning' | 'error'` of a notification. */
  datatype NotificationType = Info | Success | Warning | Error

  /** `'employee' | 'admin'`: the kind of a user and of a message sender. */
  datatype Party = EmployeeParty | AdminParty

  /** The text each tag has in the stored JSON and in notification messages. */
  function PaymentStatusText(s: PaymentStatus): (r: string)
    ensures r in {"pending", "paid", "processing"}
  {
    match s
    case Pending => "pending"
    case Paid => "paid"
    case Processing => "processing"
  }

  function RequestTypeText(t: RequestType): (r: string)
    ensures r in {"salary", "advance", "bonus", "reimbursement", "other"}
  {
    match t
    case Salary => "salary"
    case Advance => "advance"
    case BonusRequest => "bonus"
    case Reimbursement => "reimbursement"
    case Other => "other"
  }

  /**
   * A registered employee. The identity numbers, the salary and the leave
   * balance are optional; the approval flag is always present. Salary and
   * leave balance come from `parseInt(...) || 0` in the edit form, so any
   * integer (and any salary) can be stored.
   */
  datatype Employee = Employee(
    id: string,
    fullName: string,
    email: string,
    password: string,
    contactNumber: string,
    accountNumber: string,
    parentName: string,
    parentContact: string,
    esicNumber: Option<string>,
    pfNumber: Option<string>,
    isApproved: bool,
    createdAt: int,
    basicSalary: Option<real>,
    leaveBalance: Option<int>)

  /**
   * One month of attendance and pay for one employee. Day and hour counts
   * are integers as `parseInt` gives them; the form sets no minimum, so any
   * of them may be negative, and `absentDays` is derived by subtraction
   * without a floor.
   */
  datatype MonthlyRecord = MonthlyRecord(
    id: string,
    employeeId: string,
    employeeName: string,
    month: string,
    year: int,
    basicSalary: real,
    totalWorkingDays: int,
    presentDays: int,
    absentDays: int,
    halfDays: int,
    leaveDays: int,
    overtimeHours: int,
    bonuses: real,
    deductions: real,
    grossSalary: real,
    netSalary: real,
    paymentStatus: PaymentStatus,
    createdAt: int,
    updatedAt: int)

  /**
   * A request for money. `amount` is `parseInt` of the typed text, which
   * can be NaN (stored as JSON `null`); `None` stands for that value.
   */
  datatype PayRequest = PayRequest(
    id: string,
    employeeId: string,
    employeeName: string,
    amount: Option<int>,
    purpose: string,
    description: Option<string>,
    requestType: RequestType,
    status: RequestStatus,
    createdAt: int,
    processedAt: Option<int>,
    processedBy: Option<string>,
    adminNotes: Option<string>)

  datatype Message = Message(
    id: string,
    senderId: string,
    senderName: string,
    receiverId: string,
    content: string,
    timestamp: int,
    isRead: bool,
    senderType: Party)

  datatype Notification = Notification(
    id: string,
    userId: string,
    title: string,
    message: string,
    kind: NotificationType,
    isRead: bool,
    createdAt: int)

  /** The signed-in user. */
  datatype User = User(id: string, kind: Party, name: string, email: string)

  /**
   * `Partial<MonthlyRecord>` as the salary calculator reads it: every field
   * it consults may be missing.
   */
  datatype SalaryInput = SalaryInput(
    basicSalary: Option<real>,
    totalWorkingDays: Option<int>,
    presentDays: Option<int>,
    halfDays: Option<int>,
    overtimeHours: Option<int>,
    bonuses: Option<real>,
    deductions: Option<real>)
}
