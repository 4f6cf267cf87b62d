/**
 * The browser's local storage as the application uses it: one list per
 * collection, read whole, changed and written back whole, plus the
 * signed-in user. `addNotification` is the one storage helper that changes
 * a collection itself.
 */
module LocalStore {
  import opened EmsTypes

  class Store {
    var employees: seq<Employee>
    var monthlyRecords: seq<MonthlyRecord>
    var payRequests: seq<PayRequest>
    var messages: seq<Message>
    var notifications: seq<Notification>
    /** The signed-in user (the React state and its persisted copy together). */
    var currentUser: Wrappers.Option<User>

    /**
     * Every monthly record the application writes keeps its pay figures
     * consistent: the net salary is never negative and the gross salary is
     * the net salary plus the deductions, so no record's gross salary is
     * below its deductions.
     */
    function Valid(): (ok: bool)
      reads this`monthlyRecords
      ensures monthlyRecords == [] ==> ok
      ensures ok ==> forall i :: 0 <= i < |monthlyRecords| ==>
        monthlyRecords[i].grossSalary >= monthlyRecords[i].deductions
    {
      forall i :: 0 <= i < |monthlyRecords| ==> RecordConsistent(monthlyRecords[i])
    }

    /** A browser with nothing stored yet: every `getX()` reads `'[]'`. */
    constructor ()
      ensures employees == [] && monthlyRecords == [] && payRequests == []
      ensures messages == [] && notifications == [] && currentUser.None?
      ensures Valid()
    {
      employees := [];
      monthlyRecords := [];
      payRequests := [];
      messages := [];
      notifications := [];
      currentUser := Wrappers.None;
    }

    /**
     * `addNotification`: a new unread notification goes in front of the
     * stored ones, which follow unchanged and in order. The kind defaults
     * to `info`.
     */
    method AddNotification(id: string, userId: string, title: string, message: string, now: int,
                           kind: NotificationType := Info)
      modifies this`notifications
      ensures notifications == [Notification(id, userId, title, message, kind, false, now)] + old(notifications)
      ensures |notifications| == |old(notifications)| + 1 && notifications[1..] == old(notifications)
    {
      notifications := [Notification(id, userId, title, message, kind, false, now)] + notifications;
    }
  }

  predicate RecordConsistent(r: MonthlyRecord) {
    r.netSalary >= 0.0 && r.grossSalary == r.netSalary + r.deductions
  }
}
