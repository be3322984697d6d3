/**
 * Song requests as the `messages` table stores them, and the notification
 * side of src/services/notificationService.ts: the mapping of a newly
 * inserted row and the count of pending requests.
 */
module NotificationService {
  import opened Common
  import opened Seqs

  /**
   * A row of `messages`; `userName` and `status` are nullable. `createdAt` is
   * the row's creation instant; its timestamp string orders the same way.
   */
  datatype MessageRow = MessageRow(id: string, userName: Option<string>, message: string,
                                   createdAt: int, status: Option<string>)

  /** The record handed to a subscriber for each new request. */
  datatype RequestNotification = RequestNotification(id: string, userName: string, songTitle: string, createdAt: int)

  /** A realtime change notification: its kind, schema, table and new row. */
  datatype ChangeEvent = ChangeEvent(eventType: string, schema: string, table: string, newRow: MessageRow)

  const AnonymousName: string := "Anônimo"

  /** The payload mapping: a missing or empty name becomes `Anônimo`; the request text is the message. */
  function ToNotification(row: MessageRow): (n: RequestNotification)
    ensures n.id == row.id && n.createdAt == row.createdAt && n.songTitle == row.message
    ensures n.userName == (if Truthy(row.userName) then row.userName.value else AnonymousName)
    ensures n.userName != ""
  {
    RequestNotification(row.id, OrElse(row.userName, AnonymousName), row.message, row.createdAt)
  }

  /** The subscription: only inserts into `public.messages` reach the callback. */
  function OnChange(e: ChangeEvent): (n: Option<RequestNotification>)
    ensures n.Some? <==> e.eventType == "INSERT" && e.schema == "public" && e.table == "messages"
    ensures n.Some? ==> n.value == ToNotification(e.newRow)
  {
    if e.eventType == "INSERT" && e.schema == "public" && e.table == "messages"
    then Some(ToNotification(e.newRow))
    else None
  }

  /** `status.is.null,status.eq.pending`. */
  predicate IsPending(row: MessageRow)
  {
    row.status.None? || row.status == Some("pending")
  }

  /** `getPendingRequestsCount()`: the number of pending rows; 0 when no count comes back. */
  function PendingCount(rows: seq<MessageRow>, fails: bool): (n: nat)
    ensures fails ==> n == 0
    ensures n <= |rows|
    ensures !fails ==> n == |Filter(rows, IsPending)|
  {
    CountIsFilterLength(rows, IsPending);
    if fails then 0 else Count(rows, IsPending)
  }
}
